/** The verifier-list checks of `validateUln` (scripts/layerZeroConfigPolicy.ts), on lists already in normal form. */
module UlnPolicy {
  import opened Lists

  /** What the checks accept. */
  predicate ListAccepted(actual: seq<string>, expected: seq<string>, deprecated: set<string>) {
    && |actual| == |expected|
    && (forall i :: 0 <= i < |actual| ==> actual[i] !in deprecated && actual[i] in expected)
    && (forall i :: 0 <= i < |expected| ==> expected[i] in actual)
  }

  /** The checks in order: the count, then each listed verifier, then each expected one. */
  method ValidateDvnList(actual: seq<string>, expected: seq<string>, deprecated: set<string>) returns (ok: bool)
    ensures ok <==> ListAccepted(actual, expected, deprecated)
  {
    if |actual| != |expected| {
      return false;
    }
    for i := 0 to |actual|
      invariant forall k :: 0 <= k < i ==> actual[k] !in deprecated && actual[k] in expected
    {
      if actual[i] in deprecated || actual[i] !in expected {
        return false;
      }
    }
    for i := 0 to |expected|
      invariant forall k :: 0 <= k < i ==> expected[k] in actual
    {
      if expected[i] !in actual {
        return false;
      }
    }
    return true;
  }

  /**
   With no repeated expected verifier, exactly the rearrangements of the expected list without deprecated ones pass.
   */
  lemma AcceptsRearrangements(actual: seq<string>, expected: seq<string>, deprecated: set<string>)
    requires Distinct(expected)
    ensures ListAccepted(actual, expected, deprecated)
            <==> multiset(actual) == multiset(expected)
                 && forall i :: 0 <= i < |expected| ==> expected[i] !in deprecated
  {
    if ListAccepted(actual, expected, deprecated) {
      InclusionRearranges(expected, actual);
      forall i | 0 <= i < |expected|
        ensures expected[i] !in deprecated
      {
        assert expected[i] in actual;
      }
    }
    if multiset(actual) == multiset(expected) {
      SameSize(actual, expected);
      forall i | 0 <= i < |actual|
        ensures actual[i] in expected && expected[i] in actual
      {
        InSameMultiset(actual, expected, actual[i]);
        InSameMultiset(actual, expected, expected[i]);
      }
    }
  }

  predicate AllEqual(s: seq<string>) {
    forall i, j :: 0 <= i < |s| && 0 <= j < |s| ==> s[i] == s[j]
  }

  /** Every list the checks accept is a rearrangement of the expected one. */
  ghost predicate Exact(expected: seq<string>, deprecated: set<string>) {
    forall actual :: ListAccepted(actual, expected, deprecated) ==> multiset(actual) == multiset(expected)
  }

  lemma DistinctIsExact(expected: seq<string>, deprecated: set<string>)
    requires Distinct(expected)
    ensures Exact(expected, deprecated)
  {
    forall actual | ListAccepted(actual, expected, deprecated)
      ensures multiset(actual) == multiset(expected)
    {
      AcceptsRearrangements(actual, expected, deprecated);
    }
  }

  lemma AllEqualIsExact(expected: seq<string>, deprecated: set<string>)
    requires AllEqual(expected)
    ensures Exact(expected, deprecated)
  {
    forall actual | ListAccepted(actual, expected, deprecated)
      ensures multiset(actual) == multiset(expected)
    {
      forall k | 0 <= k < |actual|
        ensures actual[k] == expected[k]
      {
        assert actual[k] in expected;
      }
      assert actual == expected;
    }
  }

  /** A deprecated expected verifier is required by one loop and refused by the other. */
  lemma DeprecatedRejects(actual: seq<string>, expected: seq<string>, deprecated: set<string>, i: nat)
    requires i < |expected| && expected[i] in deprecated
    ensures !ListAccepted(actual, expected, deprecated)
  {
    if expected[i] in actual {
      var k :| 0 <= k < |actual| && actual[k] == expected[i];
      assert actual[k] in deprecated;
    }
  }

  lemma DeprecatedIsExact(expected: seq<string>, deprecated: set<string>, i: nat)
    requires i < |expected| && expected[i] in deprecated
    ensures Exact(expected, deprecated)
  {
    forall actual
      ensures !ListAccepted(actual, expected, deprecated)
    {
      DeprecatedRejects(actual, expected, deprecated, i);
    }
  }

  /** Replacing one of two equal entries by a different expected entry goes unnoticed. */
  lemma ReplacedEntryAccepted(expected: seq<string>, deprecated: set<string>, i: nat, j: nat, k: nat)
    requires i < j < |expected| && k < |expected| && expected[i] == expected[j] && expected[k] != expected[j]
    requires forall n :: 0 <= n < |expected| ==> expected[n] !in deprecated
    ensures var actual := expected[j := expected[k]];
      ListAccepted(actual, expected, deprecated) && multiset(actual) != multiset(expected)
  {
    var actual := expected[j := expected[k]];
    forall n | 0 <= n < |expected|
      ensures expected[n] in actual
    {
      assert actual[if n == j then i else n] == expected[n];
    }
    assert multiset(actual)[expected[j]] == multiset(expected)[expected[j]] - 1;
  }

  /**
   The checks accept only rearrangements exactly when the expected list has no repetition, or repeats a single
   entry throughout, or holds a deprecated verifier and so accepts nothing.
   */
  lemma ExactlyWhen(expected: seq<string>, deprecated: set<string>)
    ensures Exact(expected, deprecated)
            <==> Distinct(expected) || AllEqual(expected)
                 || exists i :: 0 <= i < |expected| && expected[i] in deprecated
  {
    if Distinct(expected) {
      DistinctIsExact(expected, deprecated);
    } else if AllEqual(expected) {
      AllEqualIsExact(expected, deprecated);
    } else if i :| 0 <= i < |expected| && expected[i] in deprecated {
      DeprecatedIsExact(expected, deprecated, i);
    } else {
      var i, j :| 0 <= i < j < |expected| && expected[i] == expected[j];
      var m, n :| 0 <= m < |expected| && 0 <= n < |expected| && expected[m] != expected[n];
      ReplacedEntryAccepted(expected, deprecated, i, j, if expected[m] != expected[j] then m else n);
    }
  }

  /** An instance: a repeated entry stands in for another. */
  lemma RepeatedExpectation()
    ensures ListAccepted(["a", "b", "b"], ["a", "a", "b"], {}) && !Exact(["a", "a", "b"], {})
  {
    var expected := ["a", "a", "b"];
    assert "a" != "b";
    ReplacedEntryAccepted(expected, {}, 0, 1, 2);
    assert expected[1 := expected[2]] == ["a", "b", "b"];
  }
}
