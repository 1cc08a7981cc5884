/** Python's str.split and str.join for a single separator character. */
module Text {

  predicate Has(s: string, c: char) {
    c in s
  }

  /** s.split(sep): the parts between separators; one more than there are separators. */
  function Split(s: string, sep: char): (parts: seq<string>)
    ensures parts != []
  {
    if s == "" then [""]
    else
      var rest := Split(s[1..], sep);
      if s[0] == sep then [""] + rest else [[s[0]] + rest[0]] + rest[1..]
  }

  /** sep.join(parts). */
  function Join(parts: seq<string>, sep: char): string {
    if parts == [] then ""
    else if |parts| == 1 then parts[0]
    else parts[0] + [sep] + Join(parts[1..], sep)
  }

  lemma {:induction false} PartsHaveNoSeparator(s: string, sep: char)
    ensures forall part :: part in Split(s, sep) ==> !Has(part, sep)
  {
    if s != "" {
      var rest := Split(s[1..], sep);
      PartsHaveNoSeparator(s[1..], sep);
      if s[0] != sep {
        assert rest[0] in rest;
        assert !Has([s[0]] + rest[0], sep);
      }
    }
  }

  lemma {:induction false} SplitPlain(s: string, sep: char)
    requires !Has(s, sep)
    ensures Split(s, sep) == [s]
  {
    if s != "" {
      SplitPlain(s[1..], sep);
      assert [s[0]] + s[1..] == s;
    }
  }

  lemma {:induction false} SplitAtSeparator(first: string, rest: string, sep: char)
    requires !Has(first, sep)
    ensures Split(first + [sep] + rest, sep) == [first] + Split(rest, sep)
  {
    var s := first + [sep] + rest;
    if first == "" {
      assert s[1..] == rest;
    } else {
      SplitAtSeparator(first[1..], rest, sep);
      assert s[1..] == first[1..] + [sep] + rest;
      assert [first[0]] + first[1..] == first;
      assert s[0] == first[0];
    }
  }

  /** Splitting a joined list gives the parts back, provided that none contains the separator. */
  lemma {:induction false} SplitJoin(parts: seq<string>, sep: char)
    requires parts != [] && forall part :: part in parts ==> !Has(part, sep)
    ensures Split(Join(parts, sep), sep) == parts
  {
    if |parts| == 1 {
      SplitPlain(parts[0], sep);
    } else {
      SplitJoin(parts[1..], sep);
      SplitAtSeparator(parts[0], Join(parts[1..], sep), sep);
    }
  }

  lemma {:induction false} SplitTwoCount(a: string, b: string, sep: char)
    ensures |Split(a + [sep] + b, sep)| == |Split(a, sep)| + |Split(b, sep)|
  {
    var s := a + [sep] + b;
    if a == "" {
      assert s[1..] == b;
    } else {
      SplitTwoCount(a[1..], b, sep);
      assert s[1..] == a[1..] + [sep] + b && s[0] == a[0];
    }
  }

  lemma {:induction false} OnePartExactlyWhenPlain(s: string, sep: char)
    ensures |Split(s, sep)| == 1 <==> !Has(s, sep)
  {
    if s != "" {
      OnePartExactlyWhenPlain(s[1..], sep);
    }
  }

  /** A separator inside one of the parts shows: splitting gives more parts than were joined. */
  lemma {:induction false} AsManyPartsExactlyWhenPlain(parts: seq<string>, sep: char)
    requires parts != []
    ensures |Split(Join(parts, sep), sep)| >= |parts|
    ensures |Split(Join(parts, sep), sep)| == |parts| <==> forall part :: part in parts ==> !Has(part, sep)
  {
    OnePartExactlyWhenPlain(parts[0], sep);
    if |parts| > 1 {
      AsManyPartsExactlyWhenPlain(parts[1..], sep);
      SplitTwoCount(parts[0], Join(parts[1..], sep), sep);
      assert forall part :: part in parts <==> part == parts[0] || part in parts[1..];
    }
  }
}
