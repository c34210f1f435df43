/**
 * Retention of releases: cleanup lists the entries whose names start with
 * `20`, sorts the listing, and removes every line of it except the last
 * three (`sort | head -n -3 | xargs rm -rf`).
 */
module Retention {
  import opened Text

  /** Strictly increasing, so also free of repetitions. */
  predicate Sorted(s: seq<string>)
  {
    forall i, j :: 0 <= i < j < |s| ==> LexLess(s[i], s[j])
  }

  function Elems(s: seq<string>): set<string>
  {
    set x | x in s
  }

  /** One step of `sort`: a new name put in its place. */
  function Insert(x: string, s: seq<string>): (r: seq<string>)
    requires Sorted(s) && x !in s
    ensures Sorted(r) && |r| == |s| + 1
    ensures Elems(r) == Elems(s) + {x}
  {
    if s == [] then [x]
    else if LexLess(x, s[0]) then
      assert forall j :: 0 < j < |s| ==> LexLess(x, s[j]) by {
        forall j | 0 < j < |s| {
          LexLessTransitive(x, s[0], s[j]);
        }
      }
      [x] + s
    else
      LexLessTotal(x, s[0]);
      var rest := Insert(x, s[1..]);
      assert forall j :: 0 <= j < |rest| ==> rest[j] in Elems(s[1..]) + {x};
      assert Elems(s) == {s[0]} + Elems(s[1..]);
      [s[0]] + rest
  }

  /** What `head -n -3` lets through: everything but the last three lines. */
  function Expired(sorted: seq<string>): (r: seq<string>)
    ensures |r| == if |sorted| <= 3 then 0 else |sorted| - 3
    ensures r == sorted[..|r|]
  {
    if |sorted| <= 3 then [] else sorted[..|sorted| - 3]
  }

  function Min3(n: nat): nat
  {
    if n < 3 then n else 3
  }

  /**
   * `removed` is what cleanup takes out of `names`: the kept names are as
   * many as there are up to three, and every removed name sorts before
   * every kept one.
   */
  predicate RetentionSplit(names: set<string>, removed: set<string>)
  {
    && removed <= names
    && |names - removed| == Min3(|names|)
    && forall d, k :: d in removed && k in names - removed ==> LexLess(d, k)
  }

  /** The names of `names` that sort after `x`. */
  function Newer(names: set<string>, x: string): set<string>
  {
    set y | y in names && LexLess(x, y)
  }

  lemma {:induction false} SubsetCard(a: set<string>, b: set<string>)
    requires a <= b
    ensures |a| <= |b|
    decreases |a|
  {
    if a != {} {
      var x :| x in a;
      SubsetCard(a - {x}, b - {x});
    }
  }

  lemma {:induction false} SortedCard(s: seq<string>)
    requires Sorted(s)
    ensures |Elems(s)| == |s|
    decreases |s|
  {
    if s != [] {
      SortedCard(s[1..]);
      assert Elems(s) == Elems(s[1..]) + {s[0]};
      LexLessIrreflexive(s[0]);
      assert s[0] !in Elems(s[1..]);
    }
  }

  /** Sorting the listing and dropping its last three lines is a retention split. */
  lemma ExpiredIsSplit(s: seq<string>)
    requires Sorted(s)
    ensures RetentionSplit(Elems(s), Elems(Expired(s)))
  {
    SortedCard(s);
    if |s| > 3 {
      var n := |s| - 3;
      var kept := s[n..];
      assert Sorted(kept);
      SortedCard(kept);
      forall x | x in Elems(s[..n]) && x in Elems(kept)
        ensures false
      {
        var i :| 0 <= i < n && s[i] == x;
        var j :| n <= j < |s| && s[j] == x;
        LexLessIrreflexive(x);
      }
      assert Elems(s) - Elems(s[..n]) == Elems(kept);
    } else {
      assert Elems(s) - {} == Elems(s);
    }
  }

  /**
   * An independent reading of the split: a name is removed exactly when at
   * least three of the listed names sort after it.
   */
  lemma SplitByNewer(names: set<string>, removed: set<string>, x: string)
    requires RetentionSplit(names, removed) && x in names
    ensures x in removed <==> |Newer(names, x)| >= 3
  {
    var kept := names - removed;
    if x in removed {
      assert |names| > |kept| by {
        SubsetCard(kept, names - {x});
      }
      assert kept <= Newer(names, x);
      SubsetCard(kept, Newer(names, x));
    } else {
      forall y | y in Newer(names, x)
        ensures y in kept - {x}
      {
        LexLessIrreflexive(x);
        if y in removed {
          LexLessAsymmetric(y, x);
        }
      }
      SubsetCard(Newer(names, x), kept - {x});
    }
  }

  /** Only one set of names satisfies the split. */
  lemma SplitUnique(names: set<string>, a: set<string>, b: set<string>)
    requires RetentionSplit(names, a) && RetentionSplit(names, b)
    ensures a == b
  {
    forall x | x in names
      ensures x in a <==> x in b
    {
      SplitByNewer(names, a, x);
      SplitByNewer(names, b, x);
    }
  }

  /** With at most three releases listed, cleanup removes nothing. */
  lemma SmallNothingExpires(names: set<string>, removed: set<string>)
    requires |names| <= 3 && RetentionSplit(names, removed)
    ensures removed == {}
  {
  }

  /** A second cleanup right after the first removes nothing more. */
  lemma CleanupIdempotent(names: set<string>, removed: set<string>, again: set<string>)
    requires RetentionSplit(names, removed) && RetentionSplit(names - removed, again)
    ensures again == {}
  {
    SmallNothingExpires(names - removed, again);
  }
}
