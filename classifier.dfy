/** The two filters the driver applies to a match before the dictionary
    lookup: all-digit matches and the proper-noun heuristic. */
module Classifier {
  import opened Text
  import opened Tokenizer

  /** `/^\d+$/.test(value)`: non-empty and made of decimal digits only. */
  predicate IsOnlyDigits(value: string) {
    |value| > 0 && forall i :: 0 <= i < |value| ==> IsDigit(value[i])
  }

  /** `/^[A-Z]/.test(word)`. */
  predicate StartsWithUpper(word: string) {
    |word| > 0 && IsUpper(word[0])
  }

  /** The position the backward scan of `isProperNoun` inspects: it skips the
      positions past the end of the line and decides at the first one inside it. */
  function ProbedPosition(line: string, index: nat): int {
    if index < |line| then index else |line| - 1
  }

  /** What `isProperNoun` answers: an upper-case first letter, and the probed
      position is after the start of the line and does not hold a period. */
  predicate ProperNounRule(word: string, line: string, index: nat) {
    var p := ProbedPosition(line, index);
    StartsWithUpper(word) && 1 <= p && line[p] != '.'
  }

  /** The count-down loop of `isProperNoun`, with its early returns. */
  method IsProperNoun(word: string, line: string, index: nat) returns (r: bool)
    ensures r == ProperNounRule(word, line, index)
  {
    if !StartsWithUpper(word) {
      return false;
    }
    var i := index;
    while i > 0
      invariant i <= index
      invariant i == index || |line| <= i + 1
      decreases i
    {
      // `line[i]` is `undefined`, hence falsy, past the end of the line.
      if i >= |line| {
        i := i - 1;
        continue;
      }
      if line[i] == '.' {
        return false;
      }
      return true;
    }
    return false;
  }

  /** For a match of the line, the scan starts on the match's own first
      character, which is an upper-case letter whenever the first test passed:
      the period branch is never taken, and the rule reduces to "upper-case
      first letter and not at offset 0". */
  lemma ProperNounOfToken(line: string, t: Token)
    requires IsTokenOf(line, t)
    ensures ProbedPosition(line, t.offset) == t.offset
    ensures StartsWithUpper(t.text) ==> line[t.offset] != '.'
    ensures ProperNounRule(t.text, line, t.offset) <==> StartsWithUpper(t.text) && t.offset > 0
  {
    assert line[t.offset] == line[t.offset..t.offset + |t.text|][0];
  }

  /** A capitalised match with a period anywhere before it on the line is
      still taken for a proper noun: no position before the match is inspected. */
  lemma PeriodBeforeTokenIgnored(line: string, t: Token)
    requires IsTokenOf(line, t)
    requires StartsWithUpper(t.text)
    requires '.' in line[..t.offset]
    ensures ProperNounRule(t.text, line, t.offset)
  {
    ProperNounOfToken(line, t);
  }
}
