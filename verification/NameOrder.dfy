/** The order by code points in which the inventory lists its names. */
module NameOrder {
  predicate Before(a: string, b: string) {
    b != [] && (a == [] || a[0] < b[0] || (a[0] == b[0] && Before(a[1..], b[1..])))
  }

  lemma {:induction false} Trichotomy(a: string, b: string)
    ensures a == b || Before(a, b) || Before(b, a)
    ensures !(Before(a, b) && Before(b, a))
    ensures !Before(a, a)
  {
    if a != [] {
      Trichotomy(a[1..], if b == [] then [] else b[1..]);
      if b != [] && a[0] == b[0] && a[1..] == b[1..] {
        assert a == [a[0]] + a[1..] == b;
      }
    }
  }

  lemma {:induction false} Transitive(a: string, b: string, c: string)
    requires Before(a, b) && Before(b, c)
    ensures Before(a, c)
  {
    if a != [] && a[0] == b[0] && b[0] == c[0] {
      Transitive(a[1..], b[1..], c[1..]);
    }
  }

  predicate IsLeast(n: string, names: set<string>) {
    n in names && forall m <- names :: m == n || Before(n, m)
  }

  /** A sorting loop always finds its next name. */
  lemma {:induction false} LeastExists(names: set<string>) returns (least: string)
    requires names != {}
    ensures IsLeast(least, names)
    decreases |names|
  {
    var some :| some in names;
    least := some;
    var rest := names - {some};
    assert forall m <- names :: m == some || m in rest;
    if rest != {} {
      var other := LeastExists(rest);
      Trichotomy(some, other);
      if Before(other, some) {
        least := other;
      } else {
        forall m | m in names
          ensures m == some || Before(some, m)
        {
          if m != some && m != other {
            Transitive(some, other, m);
          }
        }
      }
    }
  }

  ghost predicate Ascending<T>(entries: seq<(string, T)>) {
    forall i, j :: 0 <= i < j < |entries| ==> Before(entries[i].0, entries[j].0)
  }

  lemma AscendingHead<T>(a: seq<(string, T)>, x: (string, T))
    requires Ascending(a) && x in a && x != a[0]
    ensures Before(a[0].0, x.0)
  {}

  lemma AscendingHeads<T>(a: seq<(string, T)>, b: seq<(string, T)>)
    requires Ascending(a) && Ascending(b) && a != [] && b != [] && a[0] in b && b[0] in a
    ensures a[0] == b[0]
  {
    if a[0] != b[0] {
      AscendingHead(b, a[0]);
      AscendingHead(a, b[0]);
      Trichotomy(a[0].0, b[0].0);
    }
  }

  lemma TailElements<T>(a: seq<T>)
    requires a != []
    ensures a[0] in multiset(a) && multiset(a[1..]) == multiset(a) - multiset{a[0]}
  {
    assert a == [a[0]] + a[1..];
  }

  /** There is one ascending arrangement of given entries. */
  lemma {:induction false} AscendingUnique<T>(a: seq<(string, T)>, b: seq<(string, T)>)
    requires Ascending(a) && Ascending(b) && multiset(a) == multiset(b)
    ensures a == b
  {
    if a == [] {
      assert |b| == |multiset(b)| == 0;
    } else {
      assert |multiset(b)| == |multiset(a)| > 0;
      TailElements(a);
      TailElements(b);
      AscendingHeads(a, b);
      AscendingUnique(a[1..], b[1..]);
      assert a == [a[0]] + a[1..] && b == [b[0]] + b[1..];
    }
  }
}
