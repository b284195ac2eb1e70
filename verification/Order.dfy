/** Three-way comparison of strings, and sequences sorted by it. */
module Order {
  datatype Ordering = Less | Equal | Greater {
    function Reverse(): Ordering {
      match this
      case Less => Greater
      case Equal => Equal
      case Greater => Less
    }

    /** The first of two comparisons that decides. */
    function Then(other: Ordering): Ordering {
      if Equal? then other else this
    }
  }

  function CompareInts(a: int, b: int): Ordering {
    if a < b then Less else if a == b then Equal else Greater
  }

  function CompareStrings(a: string, b: string): Ordering {
    if a == [] then (if b == [] then Equal else Less)
    else if b == [] then Greater
    else if a[0] != b[0] then (if a[0] < b[0] then Less else Greater)
    else CompareStrings(a[1..], b[1..])
  }

  lemma {:induction false} StringsTotal(a: string, b: string)
    ensures CompareStrings(a, b).Equal? <==> a == b
    ensures CompareStrings(b, a) == CompareStrings(a, b).Reverse()
  {
    if a != [] && b != [] {
      StringsTotal(a[1..], b[1..]);
      assert a == [a[0]] + a[1..] && b == [b[0]] + b[1..];
    }
  }

  lemma {:induction false} StringsTransitive(a: string, b: string, c: string)
    requires CompareStrings(a, b).Less? && CompareStrings(b, c).Less?
    ensures CompareStrings(a, c).Less?
  {
    if a != [] && a[0] == b[0] == c[0] {
      StringsTransitive(a[1..], b[1..], c[1..]);
    }
  }

  /** Up to the first difference the strings agree, and there `a` has ended or has the smaller character. */
  predicate BeforeAt(a: string, b: string, k: nat) {
    && k <= |a| && k < |b|
    && (forall j :: 0 <= j < k ==> a[j] == b[j])
    && (k < |a| ==> a[k] < b[k])
  }

  ghost predicate Before(a: string, b: string) {
    exists k: nat :: BeforeAt(a, b, k)
  }

  /** The comparison is the ascending one by the first difference. */
  lemma {:induction false} StringsAscend(a: string, b: string)
    ensures CompareStrings(a, b).Less? <==> Before(a, b)
  {
    if a == [] || b == [] || a[0] != b[0] {
      if CompareStrings(a, b).Less? {
        assert BeforeAt(a, b, 0);
      }
    } else {
      StringsAscend(a[1..], b[1..]);
      if k: nat :| BeforeAt(a[1..], b[1..], k) {
        assert forall j :: 0 < j < k + 1 ==> a[j] == a[1..][j - 1] && b[j] == b[1..][j - 1];
        assert BeforeAt(a, b, k + 1);
      }
      if k: nat :| BeforeAt(a, b, k) {
        assert BeforeAt(a[1..], b[1..], k - 1);
      }
    }
  }

  lemma {:induction false} StringsPrefix(p: string, a: string, b: string)
    ensures CompareStrings(p + a, p + b) == CompareStrings(a, b)
  {
    if p == [] {
      assert p + a == a && p + b == b;
    } else {
      assert (p + a)[1..] == p[1..] + a && (p + b)[1..] == p[1..] + b;
      StringsPrefix(p[1..], a, b);
    }
  }

  /** Strictly increasing, hence without repetition. */
  ghost predicate StrictlySorted(ss: seq<string>) {
    forall i, j :: 0 <= i < j < |ss| ==> CompareStrings(ss[i], ss[j]).Less?
  }

  /** Inserts into a sorted list without repetition, as a `BTreeSet` does. */
  function Insert(ss: seq<string>, x: string): (r: seq<string>)
    requires StrictlySorted(ss)
    ensures StrictlySorted(r)
    ensures forall y :: y in r <==> y == x || y in ss
    ensures |r| == if x in ss then |ss| else |ss| + 1
  {
    if ss == [] then [x]
    else
      StringsTotal(x, ss[0]);
      match CompareStrings(x, ss[0])
      case Less =>
        assert forall i :: 0 <= i < |ss| ==> CompareStrings(x, ss[i]).Less? by {
          forall i | 0 < i < |ss| ensures CompareStrings(x, ss[i]).Less? {
            StringsTransitive(x, ss[0], ss[i]);
          }
        }
        assert x !in ss by {
          forall i | 0 <= i < |ss| ensures ss[i] != x {
            StringsTotal(x, ss[i]);
          }
        }
        [x] + ss
      case Equal => ss
      case Greater =>
        assert ss == [ss[0]] + ss[1..];
        var rest := Insert(ss[1..], x);
        assert forall i :: 0 <= i < |rest| ==> CompareStrings(ss[0], rest[i]).Less? by {
          forall i | 0 <= i < |rest| ensures CompareStrings(ss[0], rest[i]).Less? {
            assert rest[i] in rest;
            if rest[i] in ss[1..] {
              var j :| 0 <= j < |ss[1..]| && ss[1..][j] == rest[i];
            }
          }
        }
        [ss[0]] + rest
  }

  lemma EmptyOrHolds(ss: seq<string>)
    ensures ss == [] || exists y :: y in ss
  {
    if ss != [] {
      assert ss[0] in ss;
    }
  }

  /** Two sorted lists without repetition that hold the same strings are the same list. */
  lemma {:induction false} SortedUnique(a: seq<string>, b: seq<string>)
    requires StrictlySorted(a) && StrictlySorted(b)
    requires forall y :: y in a <==> y in b
    ensures a == b
  {
    if a == [] {
      EmptyOrHolds(b);
    } else {
      assert a[0] in b;
      assert b[0] in a;
      var i :| 0 <= i < |b| && b[i] == a[0];
      var j :| 0 <= j < |a| && a[j] == b[0];
      StringsTotal(a[0], b[0]);
      assert a[0] == b[0];
      assert a == [a[0]] + a[1..] && b == [b[0]] + b[1..];
      forall y ensures y in a[1..] <==> y in b[1..] {
        StringsTotal(a[0], a[0]);
        if y in a[1..] {
          var k :| 0 <= k < |a[1..]| && a[1..][k] == y;
          assert y == a[k + 1] && y in b && y != a[0];
        }
        if y in b[1..] {
          var k :| 0 <= k < |b[1..]| && b[1..][k] == y;
          assert y == b[k + 1] && y in a && y != b[0];
        }
      }
      SortedUnique(a[1..], b[1..]);
    }
  }
}
