/** Normalising the capability list of a new unit. */
module Capabilities {
  import opened Basics

  function Normal(capability: string): string {
    ToLower(TrimSpace(capability))
  }

  function Normals(capabilities: seq<string>): seq<string> {
    seq(|capabilities|, i requires 0 <= i < |capabilities| => Normal(capabilities[i]))
  }

  /** The first n entries of a list without the repeats, in first-seen order. */
  function Distinct(list: seq<string>, n: nat): seq<string>
    requires n <= |list|
  {
    if n == 0 then []
    else
      var before := Distinct(list, n - 1);
      if list[n - 1] in before then before else before + [list[n - 1]]
  }

  /** What RegisterUnit stores, or why it refuses. */
  function Normalize(capabilities: seq<string>): Result<seq<string>> {
    if |capabilities| == 0 || |capabilities| > 30 then Failure(InvalidCapabilities)
    else if "" in Normals(capabilities) then Failure(InvalidCapability)
    else Success(Distinct(Normals(capabilities), |capabilities|))
  }

  ghost predicate NoDuplicates(s: seq<string>) {
    forall i, j :: 0 <= i < j < |s| ==> s[i] != s[j]
  }

  /** Entry i of the list is c and no earlier entry is. */
  ghost predicate FirstSeen(list: seq<string>, c: string, i: nat) {
    i < |list| && list[i] == c && c !in list[..i]
  }

  lemma {:induction false} DistinctContents(list: seq<string>, n: nat)
    requires n <= |list|
    ensures NoDuplicates(Distinct(list, n))
    ensures forall c :: c in Distinct(list, n) <==> c in list[..n]
  {
    if n > 0 {
      DistinctContents(list, n - 1);
      assert list[..n] == list[..n - 1] + [list[n - 1]];
    }
  }

  /** First-seen order: each kept entry has a first occurrence, and these increase along the result. */
  lemma {:induction false} DistinctFirstSeen(list: seq<string>, n: nat) returns (positions: seq<nat>)
    requires n <= |list|
    ensures |positions| == |Distinct(list, n)|
    ensures forall k :: 0 <= k < |positions| ==> positions[k] < n && FirstSeen(list, Distinct(list, n)[k], positions[k])
    ensures forall k, l :: 0 <= k < l < |positions| ==> positions[k] < positions[l]
  {
    if n == 0 {
      return [];
    }
    positions := DistinctFirstSeen(list, n - 1);
    if list[n - 1] !in Distinct(list, n - 1) {
      DistinctContents(list, n - 1);
      assert FirstSeen(list, list[n - 1], n - 1);
      positions := positions + [n - 1];
    }
  }

  /** The stored list is duplicate-free, and holds a text exactly when some registered capability
      is equal to it after trimming and lower-casing. */
  lemma NormalizedMembership(capabilities: seq<string>)
    requires Normalize(capabilities).Success?
    ensures NoDuplicates(Normalize(capabilities).value)
    ensures forall c :: c in Normalize(capabilities).value
                        <==> exists i :: 0 <= i < |capabilities| && ToLower(TrimSpace(capabilities[i])) == c
  {
    var list := Normals(capabilities);
    DistinctContents(list, |list|);
    assert list[..|list|] == list;
    forall c
      ensures c in list <==> exists i :: 0 <= i < |capabilities| && ToLower(TrimSpace(capabilities[i])) == c
    {
      if c in list {
        var i :| 0 <= i < |list| && list[i] == c;
        assert ToLower(TrimSpace(capabilities[i])) == c;
      }
      if i :| 0 <= i < |capabilities| && ToLower(TrimSpace(capabilities[i])) == c {
        assert list[i] == c;
      }
    }
  }

  /** The loop of RegisterUnit. */
  method NormalizeList(capabilities: seq<string>) returns (r: Result<seq<string>>)
    ensures r == Normalize(capabilities)
  {
    if |capabilities| == 0 || |capabilities| > 30 {
      return Failure(InvalidCapabilities);
    }
    ghost var list := Normals(capabilities);
    var seen: set<string> := {};
    var clean: seq<string> := [];
    for n := 0 to |capabilities|
      invariant clean == Distinct(list, n)
      invariant forall c :: c in seen <==> c in clean
      invariant "" !in list[..n]
    {
      var capability := ToLower(TrimSpace(capabilities[n]));
      assert capability == list[n];
      if capability == "" {
        return Failure(InvalidCapability);
      }
      assert list[..n + 1] == list[..n] + [list[n]];
      if capability !in seen {
        seen := seen + {capability};
        clean := clean + [capability];
      }
    }
    assert list[..|list|] == list;
    return Success(clean);
  }
}
