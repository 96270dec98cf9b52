/** Where one string occurs in another. */
module Search {
  import opened Optional

  predicate Occurs(text: string, pattern: string, at: int) {
    0 <= at && at + |pattern| <= |text| && text[at..at + |pattern|] == pattern
  }

  /** The first occurrence at or after `from`. */
  function FindText(text: string, pattern: string, from: nat): (r: Option<nat>)
    ensures r.Some? ==> from <= r.value && Occurs(text, pattern, r.value)
    ensures r.Some? ==> forall p :: from <= p < r.value ==> !Occurs(text, pattern, p)
    ensures r.None? ==> forall p :: from <= p ==> !Occurs(text, pattern, p)
    decreases |text| - from
  {
    if from + |pattern| > |text| then None
    else if Occurs(text, pattern, from) then Some(from)
    else FindText(text, pattern, from + 1)
  }

  /** An occurrence, character by character. */
  lemma OccursIff(text: string, pattern: string, at: int)
    ensures Occurs(text, pattern, at) <==>
            && 0 <= at && at + |pattern| <= |text|
            && forall k :: 0 <= k < |pattern| ==> pattern[k] == text[at + k]
  {
    if 0 <= at && at + |pattern| <= |text| {
      var s := text[at..at + |pattern|];
      assert forall k :: 0 <= k < |pattern| ==> s[k] == text[at + k];
    }
  }

  /** The first such character at or after `from`. */
  function FindChar(text: string, c: char, from: nat): (r: Option<nat>)
    ensures r.Some? ==> from <= r.value < |text| && text[r.value] == c && c !in text[from..r.value]
    ensures r.None? && from <= |text| ==> c !in text[from..]
  {
    assert forall p :: 0 <= p < |text| ==> (Occurs(text, [c], p) <==> text[p] == c);
    FindText(text, [c], from)
  }

  /** What occurs in a slice occurs in the whole. */
  lemma OccursInSlice(text: string, from: nat, to: nat, pattern: string, at: int)
    requires from <= to <= |text| && Occurs(text[from..to], pattern, at)
    ensures Occurs(text, pattern, from + at)
  {
    var s := text[from..to];
    OccursIff(s, pattern, at);
    OccursIff(text, pattern, from + at);
    forall k | 0 <= k < |pattern| ensures pattern[k] == text[from + at + k] {
      assert s[at + k] == text[from + (at + k)];
    }
  }

  /** What occurs in three parts occurs in the first, in the last, or meets the middle one. */
  lemma OccursInParts(a: string, m: string, b: string, pattern: string, at: int)
    requires Occurs(a + m + b, pattern, at)
    ensures at + |pattern| <= |a| ==> Occurs(a, pattern, at)
    ensures |a| + |m| <= at ==> Occurs(b, pattern, at - |a| - |m|)
    ensures forall k :: 0 <= k < |pattern| && |a| <= at + k < |a| + |m| ==> pattern[k] == m[at + k - |a|]
  {
    var text := a + m + b;
    OccursIff(text, pattern, at);
    OccursIff(a, pattern, at);
    OccursIff(b, pattern, at - |a| - |m|);
    assert forall i :: 0 <= i < |a| ==> text[i] == a[i];
    assert forall i :: |a| <= i < |a| + |m| ==> text[i] == m[i - |a|];
    assert forall i :: |a| + |m| <= i < |text| ==> text[i] == b[i - |a| - |m|];
    if |a| + |m| <= at {
      forall k | 0 <= k < |pattern| ensures pattern[k] == b[at - |a| - |m| + k] {
        assert pattern[k] == text[at + k];
      }
    }
  }
}
