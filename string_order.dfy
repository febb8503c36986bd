/**
 * The natural order of Java strings (`String.compareTo`): the first differing
 * character decides, and a proper prefix comes first. Table names are sorted
 * by it before their tablets are written.
 */
module StringOrder {

  /** `a` comes strictly before `b`. */
  predicate Less(a: string, b: string)
  {
    if a == [] then b != []
    else if b == [] then false
    else if a[0] != b[0] then a[0] < b[0]
    else Less(a[1..], b[1..])
  }

  lemma {:induction false} LessIrreflexive(a: string)
    ensures !Less(a, a)
  {
    if a != [] {
      LessIrreflexive(a[1..]);
    }
  }

  lemma {:induction false} LessTransitive(a: string, b: string, c: string)
    requires Less(a, b) && Less(b, c)
    ensures Less(a, c)
  {
    if a != [] && b != [] && c != [] && a[0] == b[0] && b[0] == c[0] {
      LessTransitive(a[1..], b[1..], c[1..]);
    }
  }

  lemma {:induction false} LessTotal(a: string, b: string)
    ensures a == b || Less(a, b) || Less(b, a)
  {
    if a != [] && b != [] && a[0] == b[0] {
      LessTotal(a[1..], b[1..]);
      if a[1..] == b[1..] {
        assert a == [a[0]] + a[1..] && b == [b[0]] + b[1..];
      }
    }
  }

  lemma LessAsymmetric(a: string, b: string)
    ensures !(Less(a, b) && Less(b, a))
  {
    if Less(a, b) && Less(b, a) {
      LessTransitive(a, b, a);
      LessIrreflexive(a);
    }
  }

  /** Strictly ascending, hence without duplicates. */
  ghost predicate Ascending(s: seq<string>)
  {
    forall i, j | 0 <= i < j < |s| :: Less(s[i], s[j])
  }

  /** Adds `x` to an ascending sequence of names, keeping it ascending and without duplicates. */
  function InsertSorted(s: seq<string>, x: string): (r: seq<string>)
    requires Ascending(s)
    ensures Ascending(r)
    ensures forall y :: y in r <==> y in s || y == x
    decreases |s|
  {
    if s == [] then [x]
    else if s[0] == x then s
    else if Less(x, s[0]) then
      LessAll(s, x);
      [x] + s
    else
      LessTotal(x, s[0]);
      var tail := InsertSorted(s[1..], x);
      HeadBefore(s, x, tail);
      assert s == [s[0]] + s[1..];
      [s[0]] + tail
  }

  lemma LessAll(s: seq<string>, x: string)
    requires Ascending(s) && s != [] && Less(x, s[0])
    ensures Ascending([x] + s)
  {
    forall j | 1 <= j < |s| ensures Less(x, s[j]) {
      LessTransitive(x, s[0], s[j]);
    }
  }

  lemma HeadBefore(s: seq<string>, x: string, tail: seq<string>)
    requires Ascending(s) && s != [] && Less(s[0], x) && Ascending(tail)
    requires forall y | y in tail :: y in s[1..] || y == x
    ensures Ascending([s[0]] + tail)
  {
    forall j | 0 <= j < |tail| ensures Less(s[0], tail[j]) {
      assert tail[j] in tail;
    }
  }
}
