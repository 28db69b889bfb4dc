/** The matches of `line.matchAll(/\w+/g)`: maximal runs of word characters
    (`[A-Za-z0-9_]`), left to right, each with the offset where it starts. */
module Tokenizer {
  import opened Text

  /** One match: its text (`match[0]`) and its start offset (`match.index`). */
  datatype Token = Token(text: string, offset: nat)

  predicate AllWordChars(s: string) {
    forall i :: 0 <= i < |s| ==> IsWordChar(s[i])
  }

  /** `t` is a maximal non-empty run of word characters of `line`, found at `t.offset`. */
  predicate IsTokenOf(line: string, t: Token) {
    && |t.text| > 0
    && t.offset + |t.text| <= |line|
    && line[t.offset..t.offset + |t.text|] == t.text
    && AllWordChars(t.text)
    && (t.offset == 0 || !IsWordChar(line[t.offset - 1]))
    && (t.offset + |t.text| == |line| || !IsWordChar(line[t.offset + |t.text|]))
  }

  /** Where the run of word characters that starts at `i` stops. */
  function RunEnd(line: string, i: nat): (j: nat)
    requires i <= |line|
    ensures i <= j <= |line|
    ensures forall k :: i <= k < j ==> IsWordChar(line[k])
    ensures j == |line| || !IsWordChar(line[j])
    decreases |line| - i
  {
    if i < |line| && IsWordChar(line[i]) then RunEnd(line, i + 1) else i
  }

  /** The matches found by a global search that resumes at position `i`,
      where `i` is the start of the line or follows a non-word character. */
  function TokensFrom(line: string, i: nat): (r: seq<Token>)
    requires i <= |line|
    requires i == 0 || !IsWordChar(line[i - 1])
    ensures forall k :: 0 <= k < |r| ==> i <= r[k].offset
    decreases |line| - i
  {
    if i == |line| then []
    else if !IsWordChar(line[i]) then TokensFrom(line, i + 1)
    else
      var j := RunEnd(line, i);
      [Token(line[i..j], i)] + (if j == |line| then [] else TokensFrom(line, j + 1))
  }

  /** All matches of `/\w+/g` in `line`. */
  function Tokens(line: string): seq<Token> {
    TokensFrom(line, 0)
  }

  /** The texts of the matches, `[...line.matchAll(/\w+/g)].map((m) => m[0])`. */
  function Words(line: string): (ws: seq<string>)
    ensures |ws| == |Tokens(line)|
    ensures forall k :: 0 <= k < |ws| ==> ws[k] == Tokens(line)[k].text
    ensures forall k :: 0 <= k < |ws| ==>
      && |ws[k]| > 0
      && AllWordChars(ws[k])
      && Tokens(line)[k].offset + |ws[k]| <= |line|
      && ws[k] == line[Tokens(line)[k].offset .. Tokens(line)[k].offset + |ws[k]|]
  {
    TokensWellFormed(line);
    var toks := Tokens(line);
    seq(|toks|, k requires 0 <= k < |toks| => toks[k].text)
  }

  /** Every token of `toks` is a match of `line` starting at `i` or later,
      and each one ends before the next one starts, with a gap between them. */
  predicate WellFormedFrom(line: string, toks: seq<Token>, i: nat) {
    && (forall k :: 0 <= k < |toks| ==> i <= toks[k].offset && IsTokenOf(line, toks[k]))
    && (forall k, l :: 0 <= k < l < |toks| ==> toks[k].offset + |toks[k].text| < toks[l].offset)
  }

  lemma WellFormedCons(line: string, t: Token, rest: seq<Token>)
    requires IsTokenOf(line, t)
    requires WellFormedFrom(line, rest, t.offset + |t.text| + 1)
    ensures WellFormedFrom(line, [t] + rest, t.offset)
  {
    var r := [t] + rest;
    assert forall k :: 0 < k < |r| ==> r[k] == rest[k - 1];
  }

  lemma WellFormedWeaken(line: string, toks: seq<Token>, i: nat, h: nat)
    requires h <= i
    requires WellFormedFrom(line, toks, i)
    ensures WellFormedFrom(line, toks, h)
  {
  }

  /** The run of word characters at `i`, when `i` starts one, is a match. */
  lemma RunIsToken(line: string, i: nat)
    requires i < |line| && IsWordChar(line[i])
    requires i == 0 || !IsWordChar(line[i - 1])
    ensures IsTokenOf(line, Token(line[i..RunEnd(line, i)], i))
  {
  }

  lemma {:induction false} TokensFromWellFormed(line: string, i: nat)
    requires i <= |line|
    requires i == 0 || !IsWordChar(line[i - 1])
    ensures WellFormedFrom(line, TokensFrom(line, i), i)
    decreases |line| - i
  {
    if i == |line| {
      assert TokensFrom(line, i) == [];
    } else if !IsWordChar(line[i]) {
      assert TokensFrom(line, i) == TokensFrom(line, i + 1);
      TokensFromWellFormed(line, i + 1);
      WellFormedWeaken(line, TokensFrom(line, i + 1), i + 1, i);
    } else {
      var j := RunEnd(line, i);
      var t := Token(line[i..j], i);
      RunIsToken(line, i);
      if j < |line| {
        assert TokensFrom(line, i) == [t] + TokensFrom(line, j + 1);
        TokensFromWellFormed(line, j + 1);
        WellFormedCons(line, t, TokensFrom(line, j + 1));
      } else {
        assert TokensFrom(line, i) == [t] + [];
        WellFormedCons(line, t, []);
      }
    }
  }

  /** The matches are maximal runs that do not overlap and come in order
      of strictly increasing offset. */
  lemma TokensWellFormed(line: string)
    ensures forall k :: 0 <= k < |Tokens(line)| ==> IsTokenOf(line, Tokens(line)[k])
    ensures forall k, l :: 0 <= k < l < |Tokens(line)| ==>
      Tokens(line)[k].offset + |Tokens(line)[k].text| < Tokens(line)[l].offset
  {
    TokensFromWellFormed(line, 0);
  }

  lemma TokenOffsetsIncrease(line: string)
    ensures forall k, l :: 0 <= k < l < |Tokens(line)| ==> Tokens(line)[k].offset < Tokens(line)[l].offset
  {
    TokensWellFormed(line);
  }

  /** Two matches that start at the same offset are the same match. */
  lemma TokenAtOffsetUnique(line: string, t: Token, u: Token)
    requires t in Tokens(line) && u in Tokens(line)
    requires t.offset == u.offset
    ensures t == u
  {
    TokensWellFormed(line);
  }

  /** Position `p` lies inside one of the tokens `toks`. */
  predicate Covered(toks: seq<Token>, p: int) {
    exists k :: 0 <= k < |toks| && toks[k].offset <= p < toks[k].offset + |toks[k].text|
  }

  lemma CoveredCons(t: Token, rest: seq<Token>, p: int)
    ensures Covered([t] + rest, p) <==> (t.offset <= p < t.offset + |t.text|) || Covered(rest, p)
  {
    var r := [t] + rest;
    assert r[0] == t;
    if Covered(rest, p) {
      var k :| 0 <= k < |rest| && rest[k].offset <= p < rest[k].offset + |rest[k].text|;
      assert r[k + 1] == rest[k];
    }
    if Covered(r, p) {
      var k :| 0 <= k < |r| && r[k].offset <= p < r[k].offset + |r[k].text|;
      if k > 0 {
        assert rest[k - 1] == r[k];
      }
    }
  }

  /** No token found from `i` on covers a position before `i`. */
  lemma NotCoveredBefore(line: string, i: nat, p: int)
    requires i <= |line|
    requires i == 0 || !IsWordChar(line[i - 1])
    requires p < i
    ensures !Covered(TokensFrom(line, i), p)
  {
  }

  /** Every word character from `i` on lies inside one of the matches, and
      every match is made of word characters only. */
  lemma {:induction false} TokensFromCover(line: string, i: nat, p: nat)
    requires i <= |line|
    requires i == 0 || !IsWordChar(line[i - 1])
    requires i <= p < |line|
    ensures IsWordChar(line[p]) <==> Covered(TokensFrom(line, i), p)
    decreases |line| - i
  {
    if !IsWordChar(line[i]) {
      if p > i {
        TokensFromCover(line, i + 1, p);
      } else {
        NotCoveredBefore(line, i + 1, p);
      }
    } else {
      var j := RunEnd(line, i);
      if j < |line| && j < p {
        TokensFromCover(line, j + 1, p);
      }
      RunCover(line, i, p);
    }
  }

  /** The case of `TokensFromCover` where a run starts at `i`: the run covers
      positions up to its end, and the search resumes after the delimiter. */
  lemma RunCover(line: string, i: nat, p: nat)
    requires i <= p < |line|
    requires i == 0 || !IsWordChar(line[i - 1])
    requires IsWordChar(line[i])
    requires RunEnd(line, i) < |line| && RunEnd(line, i) < p ==>
      (IsWordChar(line[p]) <==> Covered(TokensFrom(line, RunEnd(line, i) + 1), p))
    ensures IsWordChar(line[p]) <==> Covered(TokensFrom(line, i), p)
  {
    var j := RunEnd(line, i);
    var t := Token(line[i..j], i);
    var rest := if j == |line| then [] else TokensFrom(line, j + 1);
    assert TokensFrom(line, i) == [t] + rest;
    CoveredCons(t, rest, p);
    if j < |line| && p <= j {
      NotCoveredBefore(line, j + 1, p);
    }
  }

  /** The matches cover exactly the word characters of the line. */
  lemma TokensCover(line: string, p: nat)
    requires p < |line|
    ensures IsWordChar(line[p]) <==> Covered(Tokens(line), p)
  {
    TokensFromCover(line, 0, p);
  }
}
