/**
 * What the four connection-pool managers share: connection identities, the
 * size constants, the two ways `getConnection` fails, and the two list
 * operations they use (`List.remove(Object)` and `removeIf`).
 */
module PoolCommon {

  /**
   * A JDBC connection, by identity: the pools compare connections with
   * `equals`, which for a driver's connection object is reference identity.
   */
  type ConnId = nat

  const INITIAL_POOL_SIZE: nat := 5
  const MAX_POOL_SIZE: nat := 10

  datatype PoolError =
    | PoolExhausted   // "Maximum pool size reached, no available connections!"
    | FactoryFailure  // "Failed to create a database connection."

  predicate NoDuplicates(s: seq<ConnId>)
  {
    forall i, j :: 0 <= i < j < |s| ==> s[i] != s[j]
  }

  /** `list.remove(x)` for an object argument: the first occurrence goes, the rest keeps its order. */
  function RemoveFirst(s: seq<ConnId>, x: ConnId): (r: seq<ConnId>)
    ensures x in s ==> |r| == |s| - 1
    ensures x !in s ==> r == s
    ensures multiset(r) == multiset(s) - multiset{x}
  {
    if s == [] then []
    else
      assert s == [s[0]] + s[1..];
      if s[0] == x then s[1..] else [s[0]] + RemoveFirst(s[1..], x)
  }

  /** In a list without duplicates, removing `x` removes every trace of it. */
  lemma RemoveFirstNoDuplicates(s: seq<ConnId>, x: ConnId)
    requires NoDuplicates(s)
    ensures NoDuplicates(RemoveFirst(s, x))
    ensures x !in RemoveFirst(s, x)
    ensures forall c :: c in RemoveFirst(s, x) <==> c in s && c != x
  {
    var r := RemoveFirst(s, x);
    forall c ensures c in r <==> c in s && c != x {
      assert c in r <==> multiset(r)[c] > 0;
      assert c in s <==> multiset(s)[c] > 0;
      if x in s {
        var k :| 0 <= k < |s| && s[k] == x;
        if c == x {
          MultisetOfDistinct(s, k);
        }
      }
    }
    forall c | c in r ensures multiset(r)[c] <= 1 {
      MultisetAtMostOne(s, c);
    }
    MultisetNoDuplicates(r);
  }

  lemma {:induction false} MultisetAtMostOne(s: seq<ConnId>, c: ConnId)
    requires NoDuplicates(s)
    ensures multiset(s)[c] <= 1
  {
    if s != [] {
      assert s == [s[0]] + s[1..];
      MultisetAtMostOne(s[1..], c);
      if c == s[0] {
        assert c !in s[1..];
      }
    }
  }

  lemma MultisetOfDistinct(s: seq<ConnId>, k: nat)
    requires NoDuplicates(s) && k < |s|
    ensures multiset(s)[s[k]] == 1
  {
    MultisetAtMostOne(s, s[k]);
  }

  lemma {:induction false} MultisetNoDuplicates(s: seq<ConnId>)
    requires forall c :: c in s ==> multiset(s)[c] <= 1
    ensures NoDuplicates(s)
  {
    if s != [] {
      assert s == [s[0]] + s[1..];
      assert s[0] in s;
      assert multiset(s)[s[0]] == 1 + multiset(s[1..])[s[0]];
      assert s[0] !in s[1..];
      forall c | c in s[1..] ensures multiset(s[1..])[c] <= 1 {
        assert c in s;
      }
      MultisetNoDuplicates(s[1..]);
    }
  }

  /** `list.removeIf(c -> c in gone)`: the survivors, in their original order. */
  function Without(s: seq<ConnId>, gone: set<ConnId>): (r: seq<ConnId>)
    ensures forall c :: c in r <==> c in s && c !in gone
    ensures |r| <= |s|
    ensures (forall c :: c in s ==> c !in gone) ==> r == s
    ensures NoDuplicates(s) ==> NoDuplicates(r)
  {
    if s == [] then []
    else
      var init := Without(s[..|s| - 1], gone);
      var last := s[|s| - 1];
      assert s == s[..|s| - 1] + [last];
      assert NoDuplicates(s) ==> last !in s[..|s| - 1];
      if last in gone then init else init + [last]
  }

  /** Each survivor keeps its multiplicity; a removed one has none left. */
  lemma {:induction false} WithoutMultiset(s: seq<ConnId>, gone: set<ConnId>, c: ConnId)
    ensures multiset(Without(s, gone))[c] == if c in gone then 0 else multiset(s)[c]
  {
    if s != [] {
      var init := s[..|s| - 1];
      var last := s[|s| - 1];
      assert s == init + [last];
      WithoutMultiset(init, gone, c);
      if last in gone {
        assert Without(s, gone) == Without(init, gone);
      } else {
        assert Without(s, gone) == Without(init, gone) + [last];
      }
    }
  }

  /**
   * Removal keeps the survivors in their original order: filtering a
   * concatenation filters each part in place.
   */
  lemma {:induction false} WithoutAppend(a: seq<ConnId>, b: seq<ConnId>, gone: set<ConnId>)
    ensures Without(a + b, gone) == Without(a, gone) + Without(b, gone)
    decreases |b|
  {
    if b == [] {
      assert a + b == a;
    } else {
      var n := |b| - 1;
      assert (a + b)[..|a + b| - 1] == a + b[..n];
      WithoutAppend(a, b[..n], gone);
    }
  }
}
