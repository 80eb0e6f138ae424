/** Model of the two array rewrites in ArrayPerf's sort utilities: copying a
    standard array into a raw array, and turning an array into an "organ pipe"
    by mirroring its first half onto its second half in place. The source fixes
    the length at `HOW_MANY_ELEMENTS`; the model states both for every length.
 */
module ArrayPerf {

  /** The organ-pipe image of `s`: position i holds the element at i or at its
      mirror position |s| - 1 - i, whichever is nearer the front. */
  function OrganPipe(s: seq<int>): (r: seq<int>)
    ensures |r| == |s|
  {
    seq(|s|, i requires 0 <= i < |s| => if i <= |s| - 1 - i then s[i] else s[|s| - 1 - i])
  }

  /** The first half (rounded down) of an organ pipe is the original first half. */
  lemma OrganPipeKeepsFirstHalf(s: seq<int>)
    ensures OrganPipe(s)[..|s| / 2] == s[..|s| / 2]
  {
  }

  /** An organ pipe reads the same forwards and backwards. */
  lemma OrganPipeIsPalindrome(s: seq<int>)
    ensures forall i :: 0 <= i < |s| ==> OrganPipe(s)[i] == OrganPipe(s)[|s| - 1 - i]
  {
  }

  /** For odd lengths the middle is kept and every later position k takes the element
      at 2 * mid - k (the source's mid + i from mid - i); for even lengths position k
      takes 2 * mid - 1 - k (mid + i from mid - 1 - i). */
  lemma OrganPipeBranches(s: seq<int>)
    ensures |s| % 2 == 1 ==>
      OrganPipe(s)[|s| / 2] == s[|s| / 2] &&
      forall k :: |s| / 2 < k < |s| ==> OrganPipe(s)[k] == s[2 * (|s| / 2) - k]
    ensures |s| % 2 == 0 ==>
      forall k :: |s| / 2 <= k < |s| ==> OrganPipe(s)[k] == s[2 * (|s| / 2) - 1 - k]
  {
    if |s| % 2 == 1 {
      assert |s| == 2 * (|s| / 2) + 1;
    } else {
      assert |s| == 2 * (|s| / 2);
    }
  }

  predicate Ascending(s: seq<int>)
  {
    forall i, j :: 0 <= i <= j < |s| ==> s[i] <= s[j]
  }

  /** The organ pipe of an ascending array rises up to the middle and falls after it. */
  lemma OrganPipeOfAscending(s: seq<int>)
    requires Ascending(s)
    ensures forall i, j :: 0 <= i <= j < |s| && j <= |s| - 1 - j ==> OrganPipe(s)[i] <= OrganPipe(s)[j]
    ensures forall i, j :: 0 <= i <= j < |s| && |s| - 1 - i <= i ==> OrganPipe(s)[i] >= OrganPipe(s)[j]
  {
  }

  /** `initializeRawArrayFromStdArray`: copies every element of `source` into the
      same position of `dest`; the rest of `dest` and `source` are unchanged. */
  method InitializeRawArrayFromStdArray(source: array<int>, dest: array<int>)
    requires source.Length <= dest.Length
    modifies dest
    ensures source[..] == old(source[..])
    ensures dest[..source.Length] == old(source[..])
    ensures dest[source.Length..] == old(dest[source.Length..])
  {
    var i := 0;
    while i < source.Length
      invariant 0 <= i <= source.Length
      invariant source[..] == old(source[..])
      invariant dest[..i] == old(source[..i])
      invariant dest[source.Length..] == old(dest[source.Length..])
    {
      dest[i] := source[i];
      i := i + 1;
    }
  }

  /** `organPipeStdArray`: mirrors the first half onto the second half in place. Each
      write goes to a position at or after the middle and each read comes from one
      before it, so no read sees a value the loop wrote. */
  method OrganPipeStdArray(data: array<int>)
    modifies data
    ensures data[..] == OrganPipe(old(data[..]))
  {
    ghost var s := data[..];
    var n := data.Length;
    var midIndex := n / 2;
    if n % 2 == 1 {
      assert n == 2 * midIndex + 1;
      var i := 1;
      while i <= midIndex
        invariant 1 <= i <= midIndex + 1
        invariant forall k :: 0 <= k <= midIndex ==> data[k] == s[k]
        invariant forall k :: midIndex < k < midIndex + i ==> data[k] == s[n - 1 - k]
        invariant forall k :: midIndex + i <= k < n ==> data[k] == s[k]
      {
        data[midIndex + i] := data[midIndex - i];
        i := i + 1;
      }
    } else {
      assert n == 2 * midIndex;
      var i := 0;
      while i < midIndex
        invariant 0 <= i <= midIndex
        invariant forall k :: 0 <= k < midIndex ==> data[k] == s[k]
        invariant forall k :: midIndex <= k < midIndex + i ==> data[k] == s[n - 1 - k]
        invariant forall k :: midIndex + i <= k < n ==> data[k] == s[k]
      {
        data[midIndex + i] := data[midIndex - i - 1];
        i := i + 1;
      }
    }
    assert forall k :: 0 <= k < n ==> data[..][k] == OrganPipe(s)[k];
  }
}
