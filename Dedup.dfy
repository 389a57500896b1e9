/** Order-preserving de-duplication of the collected strings: a loop that keeps a list
    and a `seen` set, appending each string the first time it shows up. */
module Deduplication {

  /** No element occurs twice. */
  predicate NoDuplicates<T(==)>(s: seq<T>) {
    forall i, j :: 0 <= i < j < |s| ==> s[i] != s[j]
  }

  /** The set of elements of `s`. */
  function Elements<T>(s: seq<T>): set<T> {
    set x | x in s
  }

  /** The index of the first occurrence of `x` in `s`. */
  function FirstIndex<T(==)>(s: seq<T>, x: T): (k: nat)
    requires x in s
    ensures k < |s| && s[k] == x && x !in s[..k]
  {
    if s[0] == x then 0
    else
      assert s == [s[0]] + s[1..];
      1 + FirstIndex(s[1..], x)
  }

  /** `unique_ips` for `all_ips` = `s`: the list the loop has built after reading all of `s`. */
  function Dedup<T(==)>(s: seq<T>): seq<T> {
    if s == [] then []
    else
      var d := Dedup(s[..|s| - 1]);
      if s[|s| - 1] in d then d else d + [s[|s| - 1]]
  }

  /** The loop over `all_ips`. Throughout, `seen` is the set of elements of `unique_ips`. */
  method Deduplicate<T(==)>(allIps: seq<T>) returns (uniqueIps: seq<T>)
    ensures uniqueIps == Dedup(allIps)
  {
    uniqueIps := [];
    var seen: set<T> := {};
    for i := 0 to |allIps|
      invariant uniqueIps == Dedup(allIps[..i])
      invariant seen == Elements(uniqueIps)
    {
      assert allIps[..i + 1][..i] == allIps[..i];
      var ip := allIps[i];
      if ip !in seen {
        uniqueIps := uniqueIps + [ip];
        seen := seen + {ip};
      }
    }
    assert allIps[..|allIps|] == allIps;
  }

  /** `unique_ips` holds exactly the strings of `all_ips`. */
  lemma {:induction false} DedupSameElements<T>(s: seq<T>)
    ensures Elements(Dedup(s)) == Elements(s)
  {
    if s != [] {
      var init := s[..|s| - 1];
      DedupSameElements(init);
      var d, x := Dedup(init), s[|s| - 1];
      assert s == init + [x];
      assert Elements(init + [x]) == Elements(init) + {x};
      assert Elements(d + [x]) == Elements(d) + {x};
      assert x in d ==> x in Elements(d);
    }
  }

  /** `unique_ips` has no duplicates. */
  lemma {:induction false} DedupNoDuplicates<T>(s: seq<T>)
    ensures NoDuplicates(Dedup(s))
  {
    if s != [] {
      DedupNoDuplicates(s[..|s| - 1]);
    }
  }

  /** The first occurrence of an element of `s` is where it is in `s + [x]`. */
  lemma FirstIndexSnoc<T>(s: seq<T>, x: T, y: T)
    requires y in s
    ensures FirstIndex(s + [x], y) == FirstIndex(s, y)
  {
    var k, k' := FirstIndex(s, y), FirstIndex(s + [x], y);
    assert (s + [x])[..k + 1] == s[..k + 1];
    assert y in (s + [x])[..k + 1];
  }

  /** `u[i]` and `u[j]` occur in `s`, and `u[i]` occurs there first. */
  ghost predicate FirstOccursBefore<T>(u: seq<T>, s: seq<T>, i: nat, j: nat)
    requires i < |u| && j < |u|
  {
    u[i] in s && u[j] in s && FirstIndex(s, u[i]) < FirstIndex(s, u[j])
  }

  /** Every element of `u` occurs in `s`, and `u` lists them in the order in which they
      first occur in `s`. */
  ghost predicate InFirstOccurrenceOrder<T>(u: seq<T>, s: seq<T>) {
    forall i, j :: 0 <= i < j < |u| ==> FirstOccursBefore(u, s, i, j)
  }

  /** `unique_ips` lists the strings in the order of their first occurrence in `all_ips`. */
  lemma {:induction false} DedupFirstOccurrenceOrder<T>(s: seq<T>)
    ensures InFirstOccurrenceOrder(Dedup(s), s)
  {
    if s != [] {
      var init, x := s[..|s| - 1], s[|s| - 1];
      var d := Dedup(init);
      DedupFirstOccurrenceOrder(init);
      DedupSameElements(init);
      assert s == init + [x];
      var u := Dedup(s);
      assert u == if x in d then d else d + [x];
      forall i, j | 0 <= i < j < |u| ensures FirstOccursBefore(u, s, i, j) {
        assert u[i] == d[i] && d[i] in Elements(d);
        FirstIndexSnoc(init, x, d[i]);
        if j < |d| {
          assert u[j] == d[j] && d[j] in Elements(d);
          FirstIndexSnoc(init, x, d[j]);
          assert FirstOccursBefore(d, init, i, j);
        } else {
          assert x !in Elements(init);
          assert u[j] == x;
          assert FirstIndex(s, x) == |init|;
        }
      }
      assert InFirstOccurrenceOrder(u, s);
    }
  }

  /** De-duplicating a list that has no duplicates gives it back unchanged. */
  lemma {:induction false} DedupOfDistinct<T>(s: seq<T>)
    requires NoDuplicates(s)
    ensures Dedup(s) == s
  {
    if s != [] {
      var init, x := s[..|s| - 1], s[|s| - 1];
      assert NoDuplicates(init);
      DedupOfDistinct(init);
    }
  }

  /** The example of two pages' worth of matches with repeats. */
  lemma DedupExample()
    ensures Dedup(["1.2.3.4", "1.2.3.4", "5.6.7.8", "5.6.7.8", "9.9.9.9"])
         == ["1.2.3.4", "5.6.7.8", "9.9.9.9"]
  {
    var s := ["1.2.3.4", "1.2.3.4", "5.6.7.8", "5.6.7.8", "9.9.9.9"];
    assert s[..1] == ["1.2.3.4"];
    assert Dedup(s[..1]) == ["1.2.3.4"];
    assert s[..2][..1] == s[..1];
    assert Dedup(s[..2]) == ["1.2.3.4"];
    assert s[..3][..2] == s[..2];
    assert Dedup(s[..3]) == ["1.2.3.4", "5.6.7.8"];
    assert s[..4][..3] == s[..3];
    assert Dedup(s[..4]) == ["1.2.3.4", "5.6.7.8"];
    assert s[..4] == s[..|s| - 1];
  }
}
