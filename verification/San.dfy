/**
 The subject alternative names of bumper/utils/certs.py as a set: the two-label roots of the accepted
 domains, and a wildcard above every suffix of at least two labels.  Which hosts the set covers.
 */
module San {
  import opened Text

  function Labels(domain: string): (labels: seq<string>)
    ensures labels != []
  {
    Split(domain, '.')
  }

  function Name(labels: seq<string>): string {
    Join(labels, '.')
  }

  predicate Plain(labels: seq<string>) {
    forall l :: l in labels ==> !Has(l, '.')
  }

  /** A domain with a single label is skipped. */
  predicate Accepted(domain: string) {
    |Labels(domain)| >= 2
  }

  /** The suffixes of at least two labels. */
  function SuffixesOf(labels: seq<string>): set<seq<string>> {
    set i | 0 <= i <= |labels| - 2 :: labels[i..]
  }

  function Suffixes(domains: seq<string>): set<seq<string>> {
    set d, s | d in domains && s in SuffixesOf(Labels(d)) :: s
  }

  function Wildcard(labels: seq<string>): string {
    "*." + Name(labels)
  }

  /** The entries for a set of suffixes. */
  function Entries(suffixes: set<seq<string>>): set<string> {
    (set s | s in suffixes && |s| == 2 :: Name(s)) + (set s | s in suffixes :: Wildcard(s))
  }

  function EntriesFor(domains: seq<string>): set<string> {
    Entries(Suffixes(domains))
  }

  lemma SuffixesAreLong(domains: seq<string>, s: seq<string>)
    requires s in Suffixes(domains)
    ensures |s| >= 2 && Plain(s)
  {
    var d :| d in domains && s in SuffixesOf(Labels(d));
    PartsHaveNoSeparator(d, '.');
  }

  /** The set of entries depends neither on the order of the domains nor on how often each is listed. */
  lemma OrderAndDuplicatesDoNotMatter(domains: seq<string>, others: seq<string>)
    requires forall d :: d in domains <==> d in others
    ensures EntriesFor(domains) == EntriesFor(others)
  {
    assert Suffixes(domains) == Suffixes(others);
  }

  // ---- matching ----

  /** Section 6.4.3 of RFC 6125: a wildcard is the whole leftmost label, and stands for one label. */
  predicate Matches(entry: string, host: string) {
    var e, h := Labels(entry), Labels(host);
    |e| == |h| && (e[0] == "*" || e[0] == h[0]) && e[1..] == h[1..]
  }

  ghost predicate Covered(domains: seq<string>, host: string) {
    exists e :: e in EntriesFor(domains) && Matches(e, host)
  }

  /** A root of an accepted domain, or one label below a suffix of one. */
  predicate Wanted(domains: seq<string>, host: string) {
    (Labels(host) in Suffixes(domains) && |Labels(host)| == 2) || Labels(host)[1..] in Suffixes(domains)
  }

  lemma NameLabels(labels: seq<string>)
    requires labels != [] && Plain(labels)
    ensures Labels(Name(labels)) == labels
  {
    SplitJoin(labels, '.');
  }

  lemma WildcardLabels(labels: seq<string>)
    requires labels != [] && Plain(labels)
    ensures Labels(Wildcard(labels)) == ["*"] + labels
  {
    NameLabels(labels);
    SplitAtSeparator("*", Name(labels), '.');
    assert "*" + ['.'] + Name(labels) == Wildcard(labels);
  }

  /** A wildcard entry matches exactly the hosts one label below its suffix. */
  lemma WildcardMatches(s: seq<string>, host: string)
    requires |s| >= 2 && Plain(s)
    ensures Matches(Wildcard(s), host) <==> Labels(host)[1..] == s
  {
    WildcardLabels(s);
    assert (["*"] + s)[1..] == s;
  }

  /** The entry of a root matches that root, and other hosts only if its first label is a wildcard by itself. */
  lemma RootMatches(s: seq<string>, host: string)
    requires |s| == 2 && Plain(s)
    ensures Matches(Name(s), host) <==> Labels(host) == s || (s[0] == "*" && |Labels(host)| == 2 && Labels(host)[1] == s[1])
  {
    NameLabels(s);
    var h := Labels(host);
    if |h| == 2 {
      assert h == [h[0], h[1]] && s == [s[0], s[1]];
      assert h[1..] == [h[1]] && s[1..] == [s[1]];
    }
  }

  /** Every wanted host is covered: in particular each accepted domain, and each host one label below one. */
  lemma WantedIsCovered(domains: seq<string>, host: string)
    requires Wanted(domains, host)
    ensures Covered(domains, host)
  {
    var h := Labels(host);
    if h[1..] in Suffixes(domains) {
      SuffixesAreLong(domains, h[1..]);
      WildcardMatches(h[1..], host);
      assert Wildcard(h[1..]) in EntriesFor(domains);
    } else {
      SuffixesAreLong(domains, h);
      RootMatches(h, host);
      assert Name(h) in EntriesFor(domains);
    }
  }

  lemma DomainsAreWanted(domains: seq<string>, d: string)
    requires d in domains && Accepted(d)
    ensures Covered(domains, d)
    ensures forall below :: !Has(below, '.') ==> Covered(domains, below + "." + d)
  {
    var labels := Labels(d);
    assert labels[0..] == labels && labels in SuffixesOf(labels);
    if |labels| > 2 { assert labels[1..] in SuffixesOf(labels); }
    WantedIsCovered(domains, d);
    forall below | !Has(below, '.') ensures Covered(domains, below + "." + d) {
      SplitAtSeparator(below, d, '.');
      assert below + ['.'] + d == below + "." + d;
      assert Labels(below + "." + d) == [below] + labels;
      WantedIsCovered(domains, below + "." + d);
    }
  }

  /** No accepted domain has a root that is a wildcard by itself, such as *.com. */
  predicate NoStarRoot(domains: seq<string>) {
    forall s :: s in Suffixes(domains) && |s| == 2 ==> s[0] != "*"
  }

  lemma CoveredIsWanted(domains: seq<string>, host: string)
    requires NoStarRoot(domains) && Covered(domains, host)
    ensures Wanted(domains, host)
  {
    var e :| e in EntriesFor(domains) && Matches(e, host);
    if s :| s in Suffixes(domains) && |s| == 2 && e == Name(s) {
      SuffixesAreLong(domains, s);
      RootMatches(s, host);
    } else {
      var s :| s in Suffixes(domains) && e == Wildcard(s);
      SuffixesAreLong(domains, s);
      WildcardMatches(s, host);
    }
  }

  ghost function Longest(suffixes: set<seq<string>>): (n: nat)
    ensures forall s :: s in suffixes && s != [] ==> |s[0]| <= n
  {
    if suffixes == {} then 0
    else
      var s: seq<string> :| s in suffixes;
      var n := Longest(suffixes - {s});
      if s != [] && |s[0]| > n then |s[0]| else n
  }

  /** A root like *.com also covers hosts nobody listed. */
  lemma StarRootCoversStrangers(domains: seq<string>) returns (host: string)
    requires !NoStarRoot(domains)
    ensures Covered(domains, host) && !Wanted(domains, host)
  {
    var s :| s in Suffixes(domains) && |s| == 2 && s[0] == "*";
    SuffixesAreLong(domains, s);
    var n := Longest(Suffixes(domains));
    var stranger := seq(n + 1, _ => 'x');
    var h := [stranger, s[1]];
    assert s[1] in s;
    NameLabels(h);
    host := Name(h);
    RootMatches(s, host);
    assert Name(s) in EntriesFor(domains);
    assert h !in Suffixes(domains);
    if h[1..] in Suffixes(domains) {
      SuffixesAreLong(domains, h[1..]);
    }
  }

  /**
   Coverage is exact: a host is matched by an entry if and only if it is a root or one label below a
   suffix of an accepted domain - and that for all hosts exactly when no root begins with a wildcard.
   */
  lemma CoverageIsExact(domains: seq<string>)
    ensures NoStarRoot(domains) <==> forall host :: Covered(domains, host) <==> Wanted(domains, host)
  {
    forall host ensures Wanted(domains, host) ==> Covered(domains, host) {
      if Wanted(domains, host) { WantedIsCovered(domains, host); }
    }
    if NoStarRoot(domains) {
      forall host | Covered(domains, host) ensures Wanted(domains, host) {
        CoveredIsWanted(domains, host);
      }
    } else {
      var host := StarRootCoversStrangers(domains);
      assert Covered(domains, host) && !Wanted(domains, host);
    }
  }
}
