/** The whole list of subject alternative names (bumper/utils/certs.py), from the domains to the certificate's names. */
module SanList {
  import opened Results
  import opened San
  import opened SanTree

  /** sorted(): a sequence of the elements of a set, each once. */
  type Sorter = set<string> -> seq<string>

  ghost predicate Enumerates(sorted: Sorter) {
    forall s, e :: (e in sorted(s) <==> e in s) && |sorted(s)| == |s|
  }

  datatype GeneralName = IPAddress(text: string) | DNSName(text: string)

  function Prefixed(entries: seq<string>): seq<string> {
    if entries == [] then [] else ["DNS:" + entries[0]] + Prefixed(entries[1..])
  }

  const FIXED := ["IP:127.0.0.1", "DNS:localhost"]

  // ---- the set that the walk leaves ----

  lemma {:induction false} NameOfPath(s: seq<string>)
    requires |s| >= 2
    ensures NameOf(PathOf(s)) == Name(s) && PathOf(s) != Top
    ensures PathOf(s).parent == Top <==> |s| == 2
    decreases |s|
  {
    if |s| > 2 {
      NameOfPath(s[1..]);
    }
  }

  lemma {:induction false} AllUnderTop(p: Path)
    ensures Under(Top, p)
    decreases p
  {
    if p.Below? {
      AllUnderTop(p.parent);
    }
  }

  /** The roots of the tree and the wildcards of the walk are the entries of the domains. */
  lemma TreeEntries(tree: DomainTree, domains: seq<string>)
    requires tree.Valid() && tree.at.Keys == {Top} + PathsOf(domains)
    ensures Top in tree.at && tree.at[Top] == tree.tree
    ensures tree.tree.children.Keys + tree.WildcardsUnder(Top) == EntriesFor(domains)
  {
    tree.TopIsHere();
    assert tree.tree.children.Keys == set s | s in Suffixes(domains) && |s| == 2 :: Name(s) by {
      RootsAreNames(tree, domains);
    }
    assert tree.WildcardsUnder(Top) == set s | s in Suffixes(domains) :: Wildcard(s) by {
      WalkIsWildcards(tree, domains);
    }
  }

  lemma RootsAreNames(tree: DomainTree, domains: seq<string>)
    requires tree.Valid() && tree.at.Keys == {Top} + PathsOf(domains)
    ensures tree.tree.children.Keys == set s | s in Suffixes(domains) && |s| == 2 :: Name(s)
  {
    var names := set s | s in Suffixes(domains) && |s| == 2 :: Name(s);
    forall r ensures r in tree.tree.children <==> r in names {
      tree.RootIn(r);
      if Below(r, Top) in PathsOf(domains) {
        var s :| s in Suffixes(domains) && PathOfSuffix(s) == Below(r, Top);
        SuffixesAreLong(domains, s);
        NameOfPath(s);
      }
      if s :| s in Suffixes(domains) && |s| == 2 && r == Name(s) {
        assert PathOfSuffix(s) == Below(r, Top);
        assert Below(r, Top) in PathsOf(domains);
      }
    }
  }

  lemma WalkIsWildcards(tree: DomainTree, domains: seq<string>)
    requires tree.Valid() && tree.at.Keys == {Top} + PathsOf(domains)
    ensures tree.WildcardsUnder(Top) == set s | s in Suffixes(domains) :: Wildcard(s)
  {
    var stars := set s | s in Suffixes(domains) :: Wildcard(s);
    forall q | q in tree.at && q != Top ensures "*." + NameOf(q) in stars {
      var s :| s in Suffixes(domains) && PathOfSuffix(s) == q;
      SuffixesAreLong(domains, s);
      NameOfPath(s);
    }
    forall s | s in Suffixes(domains) ensures Wildcard(s) in tree.WildcardsUnder(Top) {
      SuffixesAreLong(domains, s);
      NameOfPath(s);
      assert PathOfSuffix(s) in PathsOf(domains);
      AllUnderTop(PathOf(s));
    }
  }

  // ---- the list ----

  /** The loop over the roots: each root itself, and what the walk adds from it. */
  method WalkRoots(tree: DomainTree) returns (entries: set<string>)
    requires tree.Valid() && Top in tree.at && tree.at[Top] == tree.tree
    ensures entries == tree.tree.children.Keys + tree.WildcardsUnder(Top)
  {
    var wildcardSet := new WildcardSet();
    var roots := tree.tree.children.Keys;
    ghost var done: set<string> := {};
    while roots != {}
      invariant tree.Valid() && roots !! done && roots + done == tree.tree.children.Keys
      invariant wildcardSet.entries == done + tree.WildcardsVia(Top, done)
      decreases roots
    {
      var root :| root in roots;
      WalkRoot(tree, wildcardSet, root);
      tree.WildcardsNext(Top, done, root);
      roots, done := roots - {root}, done + {root};
    }
    tree.WildcardsSplit(Top);
    entries := wildcardSet.entries;
  }

  /** The root itself, and the wildcards under it. */
  method WalkRoot(tree: DomainTree, wildcardSet: WildcardSet, root: string)
    requires tree.Valid() && Top in tree.at && tree.at[Top] == tree.tree && root in tree.tree.children
    modifies wildcardSet
    ensures tree.Valid()
    ensures wildcardSet.entries == old(wildcardSet.entries) + {root} + tree.WildcardsUnder(Below(root, Top))
  {
    tree.ChildOf(Top, root);
    wildcardSet.Add(root);
    tree.GenerateWildcards(wildcardSet, tree.tree.children[root], [root], Below(root, Top));
  }

  method CollectWildcards(domains: seq<string>) returns (entries: set<string>)
    ensures entries == EntriesFor(domains)
  {
    var tree := BuildDomainTree(domains);
    TreeEntries(tree, domains);
    entries := WalkRoots(tree);
  }

  /** The list of entries: localhost and, in sorted order, the entries of the domains. */
  method BuildSanList(domains: seq<string>, sorted: Sorter) returns (sanList: seq<string>)
    ensures sanList == FIXED + Prefixed(sorted(EntriesFor(domains)))
  {
    sanList := ["IP:127.0.0.1", "DNS:localhost"];
    var wildcardSet := CollectWildcards(domains);
    var entries := sorted(wildcardSet);
    for i := 0 to |entries|
      invariant sanList == FIXED + Prefixed(entries[..i])
    {
      PrefixedNext(entries, i);
      sanList := sanList + ["DNS:" + entries[i]];
    }
    assert entries[..|entries|] == entries;
  }

  lemma {:induction false} PrefixedAppend(a: seq<string>, b: seq<string>)
    ensures Prefixed(a + b) == Prefixed(a) + Prefixed(b)
  {
    if a == [] {
      assert a + b == b;
    } else {
      PrefixedAppend(a[1..], b);
      assert (a + b)[1..] == a[1..] + b && (a + b)[0] == a[0];
    }
  }

  lemma PrefixedNext(entries: seq<string>, i: nat)
    requires i < |entries|
    ensures Prefixed(entries[..i + 1]) == Prefixed(entries[..i]) + ["DNS:" + entries[i]]
  {
    assert entries[..i + 1] == entries[..i] + [entries[i]];
    PrefixedAppend(entries[..i], [entries[i]]);
  }

  // ---- the certificate's names ----

  /** The name an entry stands for; an entry of another kind would be dropped. */
  function NameOfSan(san: string): Option<GeneralName> {
    if "IP:" <= san then Some(IPAddress(san[3..]))
    else if "DNS:" <= san then Some(DNSName(san[4..]))
    else None
  }

  function NamesOf(sans: seq<string>): seq<GeneralName> {
    if sans == [] then []
    else
      var rest := NamesOf(sans[1..]);
      match NameOfSan(sans[0])
      case None => rest
      case Some(name) => [name] + rest
  }

  /** Collecting the names from the front. */
  lemma NamesNext(names: seq<GeneralName>, sans: seq<string>, i: nat)
    requires i < |sans|
    ensures names + NamesOf(sans[i..])
            == (if NameOfSan(sans[i]).Some? then names + [NameOfSan(sans[i]).value] else names) + NamesOf(sans[i + 1..])
  {
    assert sans[i..][0] == sans[i] && sans[i..][1..] == sans[i + 1..];
  }

  method ParseSanList(domains: seq<string>, sorted: Sorter) returns (names: seq<GeneralName>)
    ensures names == NamesOf(FIXED + Prefixed(sorted(EntriesFor(domains))))
  {
    names := [];
    var sans := BuildSanList(domains, sorted);
    assert sans[0..] == sans;
    for i := 0 to |sans|
      invariant names + NamesOf(sans[i..]) == NamesOf(sans)
    {
      NamesNext(names, sans, i);
      var name := ParseSan(sans[i]);
      if name.Some? { names := names + [name.value]; }
    }
    assert names + [] == names;
  }

  /** One round of the loop: the name an entry stands for. */
  method ParseSan(san: string) returns (name: Option<GeneralName>)
    ensures name == NameOfSan(san)
  {
    name := None;
    if "IP:" <= san {
      name := Some(IPAddress(san[3..]));
    } else if "DNS:" <= san {
      name := Some(DNSName(san[4..]));
    }
  }

  lemma NameOfDns(entry: string)
    ensures NameOfSan("DNS:" + entry) == Some(DNSName(entry))
  {
    assert ("DNS:" + entry)[0] == 'D' && ("DNS:" + entry)[4..] == entry;
  }

  lemma {:induction false} PrefixedNames(entries: seq<string>)
    ensures |NamesOf(Prefixed(entries))| == |entries|
    ensures forall k :: 0 <= k < |entries| ==> NamesOf(Prefixed(entries))[k] == DNSName(entries[k])
    decreases |entries|
  {
    if entries != [] {
      PrefixedNames(entries[1..]);
      assert Prefixed(entries)[1..] == Prefixed(entries[1..]);
      NameOfDns(entries[0]);
    }
  }

  lemma FixedNames(sans: seq<string>)
    ensures NamesOf(FIXED + sans) == [IPAddress("127.0.0.1"), DNSName("localhost")] + NamesOf(sans)
  {
    var all := FIXED + sans;
    NamesNext([], all, 0);
    NamesNext([IPAddress("127.0.0.1")], all, 1);
    NameOfDns("localhost");
    assert all[0..] == all && all[2..] == sans;
    assert "IP:127.0.0.1"[3..] == "127.0.0.1";
    assert [] + NamesOf(all) == NamesOf(all);
  }

  /** No entry is dropped: the certificate names the loopback address, localhost and exactly the entries of the domains. */
  lemma NoEntryDropped(domains: seq<string>, sorted: Sorter)
    requires Enumerates(sorted)
    ensures var names := NamesOf(FIXED + Prefixed(sorted(EntriesFor(domains))));
            && |names| == |EntriesFor(domains)| + 2
            && names[0] == IPAddress("127.0.0.1") && names[1] == DNSName("localhost")
            && forall e :: DNSName(e) in names[2..] <==> e in EntriesFor(domains)
  {
    var entries := sorted(EntriesFor(domains));
    FixedNames(Prefixed(entries));
    PrefixedNames(entries);
    var dns := NamesOf(Prefixed(entries));
    var names := [IPAddress("127.0.0.1"), DNSName("localhost")] + dns;
    assert names[2..] == dns;
    forall e ensures DNSName(e) in dns <==> e in entries {
      if e in entries {
        var k :| 0 <= k < |entries| && entries[k] == e;
        assert dns[k] == DNSName(e);
      }
    }
  }
}
