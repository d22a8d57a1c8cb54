/**
 * The byte-pattern search of ByteExtensions.cs: `Locate` reports every offset at which
 * `candidate` occurs in `self`, overlapping occurrences included.
 */
module ByteExtensions {

  /** A C# `byte`. */
  newtype byte = x: int | 0 <= x < 256

  /** `candidate` occurs in `s` at offset `i`. */
  predicate OccursAt(s: seq<byte>, candidate: seq<byte>, i: int) {
    0 <= i && i + |candidate| <= |s| && s[i..i + |candidate|] == candidate
  }

  /** The offsets below `n` at which `candidate` occurs in `s`, in increasing order. */
  function OccurrencesBelow(s: seq<byte>, candidate: seq<byte>, n: nat): seq<int>
    requires n <= |s|
  {
    if n == 0 then []
    else OccurrencesBelow(s, candidate, n - 1) + (if OccursAt(s, candidate, n - 1) then [n - 1] else [])
  }

  /**
   * The offsets below `n` are exactly the occurrences there (soundness and completeness), each
   * within bounds, in strictly increasing order.
   */
  lemma {:induction false} OccurrencesBelowSpec(s: seq<byte>, candidate: seq<byte>, n: nat)
    requires n <= |s|
    ensures var r := OccurrencesBelow(s, candidate, n);
      && (forall k :: 0 <= k < |r| ==> 0 <= r[k] < n && OccursAt(s, candidate, r[k]))
      && (forall i :: 0 <= i < n && OccursAt(s, candidate, i) ==> i in r)
      && (forall k, l :: 0 <= k < l < |r| ==> r[k] < r[l])
  {
    OccurrencesBelowSound(s, candidate, n);
    OccurrencesBelowComplete(s, candidate, n);
    OccurrencesBelowIncreasing(s, candidate, n);
  }

  /** Every offset collected below `n` is an occurrence below `n`. */
  lemma {:induction false} OccurrencesBelowSound(s: seq<byte>, candidate: seq<byte>, n: nat)
    requires n <= |s|
    ensures forall k :: 0 <= k < |OccurrencesBelow(s, candidate, n)| ==>
      0 <= OccurrencesBelow(s, candidate, n)[k] < n && OccursAt(s, candidate, OccurrencesBelow(s, candidate, n)[k])
  {
    if n > 0 {
      OccurrencesBelowSound(s, candidate, n - 1);
      var prev := OccurrencesBelow(s, candidate, n - 1);
      var r := OccurrencesBelow(s, candidate, n);
      var step := if OccursAt(s, candidate, n - 1) then [n - 1] else [];
      assert r == prev + step;
      forall k | 0 <= k < |r| ensures 0 <= r[k] < n && OccursAt(s, candidate, r[k]) {
        if k < |prev| {
          assert r[k] == prev[k];
        } else {
          assert r[k] == step[k - |prev|] == n - 1;
        }
      }
    }
  }

  /** Every occurrence below `n` is collected. */
  lemma {:induction false} OccurrencesBelowComplete(s: seq<byte>, candidate: seq<byte>, n: nat)
    requires n <= |s|
    ensures forall i :: 0 <= i < n && OccursAt(s, candidate, i) ==> i in OccurrencesBelow(s, candidate, n)
  {
    if n > 0 {
      OccurrencesBelowComplete(s, candidate, n - 1);
    }
  }

  /** The offsets collected below `n` are strictly increasing. */
  lemma {:induction false} OccurrencesBelowIncreasing(s: seq<byte>, candidate: seq<byte>, n: nat)
    requires n <= |s|
    ensures forall k, l :: 0 <= k < l < |OccurrencesBelow(s, candidate, n)| ==>
      OccurrencesBelow(s, candidate, n)[k] < OccurrencesBelow(s, candidate, n)[l]
  {
    if n > 0 {
      OccurrencesBelowIncreasing(s, candidate, n - 1);
      OccurrencesBelowSound(s, candidate, n - 1);
      var prev := OccurrencesBelow(s, candidate, n - 1);
      var r := OccurrencesBelow(s, candidate, n);
      var step := if OccursAt(s, candidate, n - 1) then [n - 1] else [];
      assert r == prev + step;
      forall k, l | 0 <= k < l < |r| ensures r[k] < r[l] {
        assert r[k] == prev[k];
        if l < |prev| {
          assert r[l] == prev[l];
        } else {
          assert r[l] == n - 1;
        }
      }
    }
  }

  /**
   * `IsEmptyLocate`: there is nothing to search for when either buffer is null or empty, or the
   * candidate is longer than the buffer.
   */
  predicate IsEmptyLocate(buffer: array?<byte>, candidate: array?<byte>)
    reads buffer, candidate
  {
    || buffer == null
    || candidate == null
    || buffer.Length == 0
    || candidate.Length == 0
    || candidate.Length > buffer.Length
  }

  /**
   * `IsMatch`: whether `candidate` occurs in `buffer` at `position`; false whenever the candidate
   * would run past the end of the buffer.
   */
  method IsMatch(buffer: array<byte>, position: int, candidate: array<byte>) returns (matched: bool)
    requires 0 <= position
    ensures matched <==> OccursAt(buffer[..], candidate[..], position)
    ensures candidate.Length > buffer.Length - position ==> !matched
  {
    if candidate.Length > buffer.Length - position {
      return false;
    }
    for i := 0 to candidate.Length
      invariant forall j :: 0 <= j < i ==> buffer[position + j] == candidate[j]
    {
      if buffer[position + i] != candidate[i] {
        assert buffer[..][position..position + candidate.Length][i] != candidate[..][i];
        return false;
      }
    }
    assert buffer[..][position..position + candidate.Length] == candidate[..];
    return true;
  }

  /**
   * `Locate`: every offset at which `candidate` occurs in `self`, in increasing order; nothing
   * when `IsEmptyLocate` holds.
   */
  method Locate(self: array?<byte>, candidate: array?<byte>) returns (r: seq<int>)
    ensures IsEmptyLocate(self, candidate) ==> r == []
    ensures !IsEmptyLocate(self, candidate) ==>
      && self != null && candidate != null
      && (forall k :: 0 <= k < |r| ==> OccursAt(self[..], candidate[..], r[k]))
      && (forall i :: OccursAt(self[..], candidate[..], i) ==> i in r)
      && (forall k :: 0 <= k < |r| ==> 0 <= r[k] <= self.Length - candidate.Length)
      && (forall k, l :: 0 <= k < l < |r| ==> r[k] < r[l])
  {
    if IsEmptyLocate(self, candidate) {
      return [];
    }
    var list: seq<int> := [];
    for i := 0 to self.Length
      invariant list == OccurrencesBelow(self[..], candidate[..], i)
    {
      var matched := IsMatch(self, i, candidate);
      if !matched {
        continue;
      }
      list := list + [i];
    }
    OccurrencesBelowSpec(self[..], candidate[..], self.Length);
    r := if |list| == 0 then [] else list;
  }
}
