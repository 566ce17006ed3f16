/** get_lengths: for each string length, the first position of a string of
    that length. */
module Lengths {

  /** The lengths that occur in `strings`. */
  function LengthsOf(strings: seq<string>): set<nat> {
    set i | 0 <= i < |strings| :: |strings[i]|
  }

  /** `lengths` maps every length occurring in `strings`, and nothing else,
      to the smallest position holding a string of that length. */
  ghost predicate IsFirstOccurrenceMap(strings: seq<string>, lengths: map<nat, nat>) {
    && lengths.Keys == LengthsOf(strings)
    && forall l :: l in lengths ==>
         && lengths[l] < |strings|
         && |strings[lengths[l]]| == l
         && forall j :: 0 <= j < lengths[l] ==> |strings[j]| != l
  }

  method GetLengths(strings: seq<string>) returns (lengths: map<nat, nat>)
    ensures IsFirstOccurrenceMap(strings, lengths)
  {
    lengths := map[];
    for i := 0 to |strings|
      invariant lengths.Keys == LengthsOf(strings[..i])
      invariant forall l :: l in lengths ==>
        && lengths[l] < i
        && |strings[lengths[l]]| == l
        && forall j :: 0 <= j < lengths[l] ==> |strings[j]| != l
    {
      var l := |strings[i]|;
      assert LengthsOf(strings[..i + 1]) == LengthsOf(strings[..i]) + {l} by {
        assert strings[..i + 1] == strings[..i] + [strings[i]];
      }
      if l in lengths {
        continue;
      }
      lengths := lengths[l := i];
    }
    assert strings[..|strings|] == strings;
  }

  /** At most one map meets the specification, so GetLengths's result is
      determined by its input. */
  lemma FirstOccurrenceMapUnique(strings: seq<string>, m1: map<nat, nat>, m2: map<nat, nat>)
    requires IsFirstOccurrenceMap(strings, m1) && IsFirstOccurrenceMap(strings, m2)
    ensures m1 == m2
  {
  }
}
