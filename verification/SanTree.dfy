/**
 The domain tree of bumper/utils/certs.py, built in place and walked recursively; both together compute
 the set of entries of San.dfy.
 */
module SanTree {
  import opened Text
  import opened San

  /** Where a dictionary is in the tree: the tree itself, or the value of a key of another dictionary. */
  datatype Path = Top | Below(key: string, parent: Path)

  /** The suffix a path stands for; the first key below the top is a whole root. */
  function NameOf(p: Path): string {
    match p
    case Top => ""
    case Below(key, Top) => key
    case Below(key, parent) => key + "." + NameOf(parent)
  }

  function PathOf(labels: seq<string>): Path
    requires |labels| >= 2
  {
    if |labels| == 2 then Below(Name(labels), Top) else Below(labels[0], PathOf(labels[1..]))
  }

  /** A nested dictionary, which knows its place. */
  class Node {
    var children: map<string, Node>
    ghost const place: Path

    constructor (ghost place: Path)
      ensures children == map[] && this.place == place
    {
      children, this.place := map[], place;
    }
  }

  type Paths = map<Path, Node>
  type Dictionaries = map<Path, map<string, Node>>

  ghost predicate Placed(at: Paths) {
    forall p :: p in at ==> at[p].place == p
  }

  /** The values of a dictionary are the dictionaries one key below it. */
  ghost predicate ChildrenKnown(at: Paths, kids: Dictionaries) {
    kids.Keys == at.Keys
    && forall p, l :: p in kids && l in kids[p] ==> Below(l, p) in at && kids[p][l] == at[Below(l, p)]
  }

  /** And every dictionary below another is a value of it. */
  ghost predicate ParentsKnow(at: Paths, kids: Dictionaries) {
    forall p, l :: Below(l, p) in at ==> p in kids && l in kids[p]
  }

  lemma ChildAdded(at: Paths, kids: Dictionaries, p: Path, key: string, child: Node)
    requires ChildrenKnown(at, kids) && ParentsKnow(at, kids)
    requires p in at && key !in kids[p]
    ensures Below(key, p) !in at
    ensures ChildrenKnown(at[Below(key, p) := child], kids[p := kids[p][key := child]][Below(key, p) := map[]])
  {
  }

  lemma ChildKnown(at: Paths, kids: Dictionaries, p: Path, key: string, child: Node)
    requires ParentsKnow(at, kids) && p in kids && Below(key, p) !in kids
    ensures ParentsKnow(at[Below(key, p) := child], kids[p := kids[p][key := child]][Below(key, p) := map[]])
  {
  }

  /** A set that is passed in and added to. */
  class WildcardSet {
    var entries: set<string>

    constructor ()
      ensures entries == {}
    {
      entries := {};
    }

    method Add(entry: string)
      modifies this
      ensures entries == old(entries) + {entry}
    {
      entries := entries + {entry};
    }
  }

  /** Names a place where an invariant is looked into; always true. */
  ghost predicate Look(x: int) {
    true
  }

  class DomainTree {
    var tree: Node

    // The node at each path, and its dictionary.
    ghost var at: Paths
    ghost var kids: Dictionaries

    /** The nodes hold these dictionaries. */
    ghost predicate Linked()
      reads this, at.Values
    {
      && Top in at && at[Top] == tree
      && kids.Keys == at.Keys && forall p :: p in at ==> at[p].children == kids[p]
    }

    ghost predicate Inner()
      reads this, at.Values
    {
      Placed(at) && ChildrenKnown(at, kids) && ParentsKnow(at, kids) && Linked()
    }

    /** The invariant, kept closed until a method looks into it. */
    ghost predicate Valid()
      reads this, at.Values
    {
      forall x: int {:trigger Look(x)} :: Look(x) ==> Inner()
    }

    constructor ()
      ensures Valid() && at.Keys == {Top} && fresh(at.Values)
    {
      var top := new Node(Top);
      tree, at, kids := top, map[Top := top], map[Top := map[]];
    }

    /** current.setdefault(key, {}). */
    method SetDefault(ghost p: Path, current: Node, key: string) returns (child: Node)
      requires Valid() && p in at && current == at[p]
      modifies this`at, this`kids, current
      ensures Valid() && Below(key, p) in at && child == at[Below(key, p)]
      ensures at.Keys == old(at.Keys) + {Below(key, p)}
      ensures fresh(at.Values - old(at.Values))
    {
      assert Look(0);
      if key in current.children {
        child := current.children[key];
      } else {
        ghost var before, dictionaries := at, kids;
        child := Insert(p, current, key);
        ChildAdded(before, dictionaries, p, key, child);
        ChildKnown(before, dictionaries, p, key, child);
      }
    }

    method Insert(ghost p: Path, current: Node, key: string) returns (child: Node)
      requires Placed(at) && Linked() && p in at && current == at[p] && Below(key, p) !in at
      modifies this`at, this`kids, current
      ensures Placed(at) && Linked() && fresh(child) && child.place == Below(key, p)
      ensures at == old(at)[Below(key, p) := child]
      ensures kids == old(kids)[p := old(kids)[p][key := child]][Below(key, p) := map[]]
    {
      child := new Node(Below(key, p));
      current.children := current.children[key := child];
      ghost var before := at;
      at, kids := at[Below(key, p) := child], kids[p := kids[p][key := child]][Below(key, p) := map[]];
      forall q | q in at ensures at[q].children == kids[q] {
        if q != p && q != Below(key, p) { assert before[q].place == q != current.place; }
      }
    }

    lemma RootIn(root: string)
      requires Valid()
      ensures root in tree.children <==> Below(root, Top) in at
    {
      assert Look(0);
    }

    lemma TopIsHere()
      requires Valid()
      ensures Top in at && at[Top] == tree
    {
      assert Look(0);
    }

    /** The body of the loop over the domains: one more domain goes into the tree. */
    method AddDomain(domain: string)
      requires Valid()
      modifies this`at, this`kids, at.Values
      ensures Valid() && fresh(at.Values - old(at.Values))
      ensures at.Keys == old(at.Keys) + set s | s in SuffixesOf(Labels(domain)) :: PathOf(s)
    {
      var parts := Split(domain, '.');
      AllPaths(parts);
      if |parts| < 2 { return; }
      LastPath(parts);
      TopIsHere();
      var current := SetDefault(Top, tree, Join(parts[|parts| - 2..], '.'));
      AddSubparts(parts, current);
    }

    /** The loop over the labels before the root, from the last to the first. */
    method AddSubparts(parts: seq<string>, root: Node)
      requires Valid() && |parts| >= 2
      requires PathOf(parts[|parts| - 2..]) in at && root == at[PathOf(parts[|parts| - 2..])]
      modifies this`at, this`kids, at.Values
      ensures Valid() && fresh(at.Values - old(at.Values))
      ensures at.Keys == old(at.Keys) + PathsFrom(parts, 0)
    {
      var i, current := |parts| - 2, root;
      ghost var p := PathOf(parts[i..]);
      LastPath(parts);
      while i > 0
        invariant 0 <= i <= |parts| - 2 && Valid()
        invariant p == PathOf(parts[i..]) && p in at && current == at[p]
        invariant fresh(at.Values - old(at.Values))
        invariant at.Keys == old(at.Keys) + PathsFrom(parts, i)
        decreases i
      {
        PathsFromNext(parts, i);
        current := SetDefault(p, current, parts[i - 1]);
        p := Below(parts[i - 1], p);
        i := i - 1;
      }
    }

    /** What the walk from a path adds: a wildcard above each suffix under it. */
    ghost function WildcardsUnder(p: Path): set<string>
      reads this`at
    {
      set q | q in at && Under(p, q) && q != Top :: "*." + NameOf(q)
    }

    /** The wildcards above the paths under some of the keys of a dictionary. */
    ghost function WildcardsVia(p: Path, done: set<string>): set<string>
      reads this`at
    {
      set q, l | q in at && l in done && Under(Below(l, p), q) :: "*." + NameOf(q)
    }

    ghost function OwnWildcard(p: Path): set<string> {
      if p == Top then {} else {"*." + NameOf(p)}
    }

    lemma ChildOf(p: Path, l: string)
      requires Valid() && p in at && l in at[p].children
      ensures Below(l, p) in at && at[Below(l, p)] == at[p].children[l]
      ensures PathsUnder(at.Keys, Below(l, p)) < PathsUnder(at.Keys, p)
    {
      assert Look(0);
      SmallerUnderChild(at.Keys, p, l);
    }

    lemma WildcardsSplit(p: Path)
      requires Valid() && p in at
      ensures WildcardsUnder(p) == OwnWildcard(p) + WildcardsVia(p, at[p].children.Keys)
    {
      forall q | q in at && Under(p, q) && q != p ensures exists l :: l in at[p].children && Under(Below(l, p), q) {
        ChildTowards(p, q);
      }
      forall q, l | q in at && Under(Below(l, p), q) ensures Under(p, q) && q != Top {
        UnderChild(p, l, q);
      }
    }

    lemma ChildTowards(p: Path, q: Path)
      requires Valid() && p in at && q in at && Under(p, q) && q != p
      ensures exists l :: l in at[p].children && Under(Below(l, p), q)
    {
      assert Look(0);
      var l := KeyTowards(p, q);
      AncestorIn(at, kids, Below(l, p), q);
    }

    lemma WildcardsNext(p: Path, done: set<string>, l: string)
      ensures WildcardsVia(p, done + {l}) == WildcardsVia(p, done) + WildcardsUnder(Below(l, p))
    {
    }

    /** The recursive walk, which adds to a set that is passed in. */
    method GenerateWildcards(wildcardSet: WildcardSet, node: Node, parentParts: seq<string>, ghost p: Path)
      requires Valid() && p in at && node == at[p]
      requires Join(parentParts, '.') == NameOf(p) && (parentParts == [] <==> p == Top)
      modifies wildcardSet
      ensures Valid() && wildcardSet.entries == old(wildcardSet.entries) + WildcardsUnder(p)
      decreases PathsUnder(at.Keys, p), 1
    {
      WildcardsSplit(p);
      if parentParts != [] {
        wildcardSet.Add("*." + Join(parentParts, '.'));
      }
      if node.children == map[] { return; }
      WalkChildren(wildcardSet, node, parentParts, p);
    }

    /** The loop over the children. */
    method WalkChildren(wildcardSet: WildcardSet, node: Node, parentParts: seq<string>, ghost p: Path)
      requires Valid() && p in at && node == at[p]
      requires Join(parentParts, '.') == NameOf(p) && (parentParts == [] <==> p == Top)
      modifies wildcardSet
      ensures Valid() && wildcardSet.entries == old(wildcardSet.entries) + WildcardsVia(p, node.children.Keys)
      decreases PathsUnder(at.Keys, p), 0
    {
      var todo := node.children.Keys;
      ghost var done: set<string> := {};
      while todo != {}
        invariant Valid() && todo !! done && todo + done == node.children.Keys
        invariant wildcardSet.entries == old(wildcardSet.entries) + WildcardsVia(p, done)
        decreases todo
      {
        var child :| child in todo;
        ChildOf(p, child);
        assert ([child] + parentParts)[1..] == parentParts;
        GenerateWildcards(wildcardSet, node.children[child], [child] + parentParts, Below(child, p));
        WildcardsNext(p, done, child);
        todo, done := todo - {child}, done + {child};
      }
    }
  }

  /** The tree of a list of domains. */
  method BuildDomainTree(domains: seq<string>) returns (tree: DomainTree)
    ensures tree.Valid() && fresh(tree) && tree.at.Keys == {Top} + PathsOf(domains)
  {
    tree := new DomainTree();
    for i := 0 to |domains|
      invariant tree.Valid() && fresh(tree) && fresh(tree.at.Values)
      invariant tree.at.Keys == {Top} + PathsOf(domains[..i])
    {
      tree.AddDomain(domains[i]);
      PathsOfNext(domains, i);
    }
    assert domains[..|domains|] == domains;
  }

  ghost function PathsOf(domains: seq<string>): set<Path> {
    set s | s in Suffixes(domains) :: PathOfSuffix(s)
  }

  /** PathOf, on any list of labels. */
  function PathOfSuffix(s: seq<string>): Path {
    if |s| >= 2 then PathOf(s) else Top
  }

  lemma PathsOfNext(domains: seq<string>, i: nat)
    requires i < |domains|
    ensures PathsOf(domains[..i + 1]) == PathsOf(domains[..i]) + set s | s in SuffixesOf(Labels(domains[i])) :: PathOf(s)
  {
    var own := set s | s in SuffixesOf(Labels(domains[i])) :: PathOf(s);
    assert domains[..i + 1] == domains[..i] + [domains[i]];
    assert forall d :: d in domains[..i + 1] <==> d in domains[..i] || d == domains[i];
    assert Suffixes(domains[..i + 1]) == Suffixes(domains[..i]) + SuffixesOf(Labels(domains[i]));
    forall s | s in SuffixesOf(Labels(domains[i])) ensures PathOfSuffix(s) == PathOf(s) && PathOf(s) in own {
    }
  }

  // ---- paths under paths ----

  predicate Under(p: Path, q: Path) {
    q == p || (q.Below? && Under(p, q.parent))
  }

  ghost function PathsUnder(keys: set<Path>, p: Path): set<Path> {
    set q | q in keys && Under(p, q)
  }

  function Depth(p: Path): nat {
    if p.Top? then 0 else Depth(p.parent) + 1
  }

  lemma {:induction false} UnderIsDeeper(p: Path, q: Path)
    requires Under(p, q)
    ensures Depth(p) <= Depth(q)
    decreases q
  {
    if q != p {
      UnderIsDeeper(p, q.parent);
    }
  }

  lemma {:induction false} UnderChild(p: Path, l: string, q: Path)
    requires Under(Below(l, p), q)
    ensures Under(p, q)
    decreases q
  {
    if q != Below(l, p) {
      UnderChild(p, l, q.parent);
    }
  }

  lemma SmallerUnderChild(keys: set<Path>, p: Path, l: string)
    requires p in keys
    ensures PathsUnder(keys, Below(l, p)) < PathsUnder(keys, p)
  {
    forall q | Under(Below(l, p), q) ensures Under(p, q) && q != p {
      UnderChild(p, l, q);
      UnderIsDeeper(Below(l, p), q);
    }
    assert p in PathsUnder(keys, p) && p !in PathsUnder(keys, Below(l, p));
  }

  /** The key of p on the way to a path under it. */
  lemma {:induction false} KeyTowards(p: Path, q: Path) returns (l: string)
    requires Under(p, q) && q != p
    ensures Under(Below(l, p), q)
    decreases q
  {
    if q.parent == p {
      l := q.key;
    } else {
      l := KeyTowards(p, q.parent);
    }
  }

  lemma {:induction false} AncestorIn(at: Paths, kids: Dictionaries, p: Path, q: Path)
    requires ChildrenKnown(at, kids) && ParentsKnow(at, kids) && q in at && Under(p, q)
    ensures p in at && (p.Below? ==> p.parent in kids && p.key in kids[p.parent])
    decreases q
  {
    if q != p {
      assert Below(q.key, q.parent) in at;
      AncestorIn(at, kids, p, q.parent);
    } else if p.Below? {
      assert Below(q.key, q.parent) in at;
    }
  }

  /** The paths of the suffixes that start at i or later. */
  ghost function PathsFrom(parts: seq<string>, i: nat): set<Path> {
    set j | i <= j <= |parts| - 2 :: PathOf(parts[j..])
  }

  lemma PathsFromNext(parts: seq<string>, i: nat)
    requires 0 < i <= |parts| - 2
    ensures PathOf(parts[i - 1..]) == Below(parts[i - 1], PathOf(parts[i..]))
    ensures PathsFrom(parts, i - 1) == PathsFrom(parts, i) + {PathOf(parts[i - 1..])}
  {
    assert parts[i - 1..][0] == parts[i - 1] && parts[i - 1..][1..] == parts[i..];
  }

  lemma LastPath(parts: seq<string>)
    requires |parts| >= 2
    ensures PathsFrom(parts, |parts| - 2) == {PathOf(parts[|parts| - 2..])}
    ensures PathOf(parts[|parts| - 2..]) == Below(Name(parts[|parts| - 2..]), Top)
  {
  }

  lemma AllPaths(parts: seq<string>)
    ensures PathsFrom(parts, 0) == set s | s in SuffixesOf(parts) :: PathOf(s)
  {
    forall j | 0 <= j <= |parts| - 2 ensures parts[j..] in SuffixesOf(parts) {
    }
  }
}
