/** The driver `spellcheck`: for every line of the content and every match in
    it, skip digit-only matches and presumed proper nouns, look the lower-cased
    match up in the dictionary, and report each miss with its suggestions, its
    context and its 1-based position. */
module Spellcheck {
  import opened Text
  import opened Tokenizer
  import opened Classifier
  import opened Ranking
  import opened Context

  /** `MispelledResult`: one reported occurrence. */
  datatype MispelledResult = MispelledResult(
    word: string,
    suggestions: seq<string>,
    context: string,
    lineNumber: nat,
    columnNumber: nat)

  /** `content.split('\n')`. */
  function Lines(content: string): seq<string> {
    Split(content, '\n')
  }

  /** The match `t` of `line` passes both filters and its lower-cased text is
      not in the dictionary. */
  predicate Flagged(line: string, t: Token, dictionary: seq<string>) {
    && !IsOnlyDigits(t.text)
    && !ProperNounRule(t.text, line, t.offset)
    && IndexOf(dictionary, ToLower(t.text)) == -1
  }

  /** The record pushed for the match `t` of line number `lineIndex`. */
  function Report(line: string, lineIndex: nat, t: Token, dictionary: seq<string>, limit: int): MispelledResult {
    var normalizedWord := ToLower(t.text);
    MispelledResult(
      normalizedWord,
      Suggestions(normalizedWord, dictionary, limit),
      GetContext(line, t.text, ContextRadius),
      lineIndex + 1,
      t.offset + 1)
  }

  /** A flagged occurrence: the 0-based line index and the match. */
  datatype Site = Site(lineIndex: nat, token: Token)

  /** The flagged matches among `toks`, the matches of line `lineIndex`, in order. */
  function LineSites(line: string, lineIndex: nat, dictionary: seq<string>, toks: seq<Token>): (r: seq<Site>)
    ensures forall s :: s in r ==> s.lineIndex == lineIndex && s.token in toks
    decreases |toks|
  {
    if toks == [] then []
    else
      var t := toks[|toks| - 1];
      LineSites(line, lineIndex, dictionary, toks[..|toks| - 1])
        + (if Flagged(line, t, dictionary) then [Site(lineIndex, t)] else [])
  }

  /** The flagged matches of the first `n` lines, line after line. */
  function SitesUpTo(lines: seq<string>, dictionary: seq<string>, n: nat): (r: seq<Site>)
    requires n <= |lines|
    ensures forall s :: s in r ==> s.lineIndex < n
  {
    if n == 0 then []
    else SitesUpTo(lines, dictionary, n - 1) + LineSites(lines[n - 1], n - 1, dictionary, Tokens(lines[n - 1]))
  }

  /** The record pushed for each of the sites, in their order. */
  function ReportAll(lines: seq<string>, sites: seq<Site>, dictionary: seq<string>, limit: int): (rs: seq<MispelledResult>)
    requires forall s :: s in sites ==> s.lineIndex < |lines|
    ensures |rs| == |sites|
  {
    seq(|sites|, i requires 0 <= i < |sites| =>
      Report(lines[sites[i].lineIndex], sites[i].lineIndex, sites[i].token, dictionary, limit))
  }

  /** What `spellcheck(content, dictionary, limit)` returns. */
  function Check(content: string, dictionary: seq<string>, limit: int): seq<MispelledResult> {
    var lines := Lines(content);
    ReportAll(lines, SitesUpTo(lines, dictionary, |lines|), dictionary, limit)
  }

  lemma ReportAllAppend(lines: seq<string>, s: seq<Site>, t: seq<Site>, dictionary: seq<string>, limit: int)
    requires forall x :: x in s + t ==> x.lineIndex < |lines|
    ensures ReportAll(lines, s + t, dictionary, limit) ==
      ReportAll(lines, s, dictionary, limit) + ReportAll(lines, t, dictionary, limit)
  {
    assert forall x :: x in s ==> x in s + t;
    assert forall x :: x in t ==> x in s + t;
  }

  /** One more match of the line: its site is added when it is flagged. */
  lemma LineSitesStep(line: string, lineIndex: nat, dictionary: seq<string>, toks: seq<Token>, m: nat)
    requires m < |toks|
    ensures LineSites(line, lineIndex, dictionary, toks[..m + 1]) ==
      LineSites(line, lineIndex, dictionary, toks[..m])
        + (if Flagged(line, toks[m], dictionary) then [Site(lineIndex, toks[m])] else [])
  {
    assert toks[..m + 1][..m] == toks[..m];
  }

  /** One pass of the `for...of` body on the match `t` of line `lineIndex`:
      the two `continue`s, the dictionary lookup and the push. Returns what
      it pushes. */
  method CheckMatch(line: string, lineIndex: nat, t: Token, dictionary: seq<string>, editDistanceLimit: int)
    returns (pushed: seq<MispelledResult>)
    ensures pushed == if Flagged(line, t, dictionary) then [Report(line, lineIndex, t, dictionary, editDistanceLimit)] else []
  {
    var word := t.text;
    var index := t.offset;
    if IsOnlyDigits(word) {
      return [];
    }
    var properNoun := IsProperNoun(word, line, index);
    if properNoun {
      return [];
    }
    var normalizedWord := ToLower(word);
    if IndexOf(dictionary, normalizedWord) == -1 {
      var suggestions := FindSuggestions(normalizedWord, dictionary, editDistanceLimit);
      return [MispelledResult(
        normalizedWord,
        suggestions,
        GetContext(line, word, ContextRadius),
        lineIndex + 1,
        index + 1)];
    }
    return [];
  }

  /** The callback that `forEach` runs on line `lineIndex`: the `for...of` over
      its matches, returning the records it pushes. */
  method CheckLine(lines: seq<string>, lineIndex: nat, dictionary: seq<string>, editDistanceLimit: int)
    returns (pushed: seq<MispelledResult>)
    requires lineIndex < |lines|
    ensures pushed == ReportAll(lines, LineSites(lines[lineIndex], lineIndex, dictionary, Tokens(lines[lineIndex])), dictionary, editDistanceLimit)
  {
    var line := lines[lineIndex];
    var matches := Tokens(line);
    pushed := [];
    ghost var sites: seq<Site> := [];
    for m := 0 to |matches|
      invariant sites == LineSites(line, lineIndex, dictionary, matches[..m])
      invariant pushed == ReportAll(lines, sites, dictionary, editDistanceLimit)
    {
      var found := CheckMatch(line, lineIndex, matches[m], dictionary, editDistanceLimit);
      ghost var site := if Flagged(line, matches[m], dictionary) then [Site(lineIndex, matches[m])] else [];
      LineSitesStep(line, lineIndex, dictionary, matches, m);
      ReportAllAppend(lines, sites, site, dictionary, editDistanceLimit);
      sites := sites + site;
      pushed := pushed + found;
    }
    assert matches[..|matches|] == matches;
  }

  /** `spellcheck`: `content.split('\n').forEach(...)`, collecting what each
      line's callback pushes onto `mispelledWords`. */
  method Spellcheck(content: string, dictionary: seq<string>, editDistanceLimit: int)
    returns (mispelledWords: seq<MispelledResult>)
    ensures mispelledWords == Check(content, dictionary, editDistanceLimit)
  {
    var lines := Split(content, '\n');
    mispelledWords := [];
    for lineIndex := 0 to |lines|
      invariant mispelledWords == ReportAll(lines, SitesUpTo(lines, dictionary, lineIndex), dictionary, editDistanceLimit)
    {
      var pushed := CheckLine(lines, lineIndex, dictionary, editDistanceLimit);
      ReportAllAppend(lines, SitesUpTo(lines, dictionary, lineIndex),
        LineSites(lines[lineIndex], lineIndex, dictionary, Tokens(lines[lineIndex])), dictionary, editDistanceLimit);
      mispelledWords := mispelledWords + pushed;
    }
  }

  // ---- What the driver promises -------------------------------------------

  /** Empty content is one empty line without matches, so nothing is reported. */
  lemma CheckOfEmptyContent(dictionary: seq<string>, limit: int)
    ensures Check("", dictionary, limit) == []
  {
    var lines := Lines("");
    assert lines == [""];
    assert Tokens("") == [];
    assert SitesUpTo(lines, dictionary, 1) == SitesUpTo(lines, dictionary, 0) + LineSites("", 0, dictionary, []);
  }

  /** For a match of the line, the filters amount to: not all digits, not a
      capitalised match after offset 0, and the lower-cased text is not in the
      dictionary. In particular a capitalised match at offset 0 is looked up. */
  lemma FlaggedRule(line: string, t: Token, dictionary: seq<string>)
    requires IsTokenOf(line, t)
    ensures Flagged(line, t, dictionary) <==>
      && !IsOnlyDigits(t.text)
      && !(StartsWithUpper(t.text) && t.offset > 0)
      && ToLower(t.text) !in dictionary
    ensures StartsWithUpper(t.text) && t.offset == 0 ==>
      (Flagged(line, t, dictionary) <==> ToLower(t.text) !in dictionary)
  {
    ProperNounOfToken(line, t);
  }

  lemma {:induction false} LineSitesSound(line: string, lineIndex: nat, dictionary: seq<string>, toks: seq<Token>)
    ensures forall s :: s in LineSites(line, lineIndex, dictionary, toks) ==> Flagged(line, s.token, dictionary)
    decreases |toks|
  {
    if toks != [] {
      LineSitesSound(line, lineIndex, dictionary, toks[..|toks| - 1]);
    }
  }

  /** Every site of the first `n` lines is a flagged match of its line. */
  lemma {:induction false} SitesUpToSound(lines: seq<string>, dictionary: seq<string>, n: nat)
    requires n <= |lines|
    ensures forall s :: s in SitesUpTo(lines, dictionary, n) ==>
      s.token in Tokens(lines[s.lineIndex]) && Flagged(lines[s.lineIndex], s.token, dictionary)
  {
    if n > 0 {
      SitesUpToSound(lines, dictionary, n - 1);
      LineSitesSound(lines[n - 1], n - 1, dictionary, Tokens(lines[n - 1]));
    }
  }

  lemma {:induction false} LineSitesComplete(line: string, lineIndex: nat, dictionary: seq<string>, toks: seq<Token>, t: Token)
    requires t in toks && Flagged(line, t, dictionary)
    ensures Site(lineIndex, t) in LineSites(line, lineIndex, dictionary, toks)
    decreases |toks|
  {
    var n := |toks| - 1;
    if t != toks[n] {
      var k :| 0 <= k < |toks| && toks[k] == t;
      assert toks[..n][k] == t;
      LineSitesComplete(line, lineIndex, dictionary, toks[..n], t);
    }
  }

  lemma {:induction false} LineSitesOrdered(line: string, lineIndex: nat, dictionary: seq<string>, toks: seq<Token>)
    requires forall a, b :: 0 <= a < b < |toks| ==> toks[a].offset < toks[b].offset
    ensures forall i, j :: 0 <= i < j < |LineSites(line, lineIndex, dictionary, toks)| ==>
      LineSites(line, lineIndex, dictionary, toks)[i].token.offset < LineSites(line, lineIndex, dictionary, toks)[j].token.offset
    decreases |toks|
  {
    if toks != [] {
      var n := |toks| - 1;
      var prefix := LineSites(line, lineIndex, dictionary, toks[..n]);
      LineSitesOrdered(line, lineIndex, dictionary, toks[..n]);
      forall s | s in prefix ensures s.token.offset < toks[n].offset {
        var k :| 0 <= k < n && toks[..n][k] == s.token;
      }
      var rs := LineSites(line, lineIndex, dictionary, toks);
      forall i, j | 0 <= i < j < |rs| ensures rs[i].token.offset < rs[j].token.offset {
        if j >= |prefix| {
          assert rs[i] in prefix;
        }
      }
    }
  }

  lemma {:induction false} SitesUpToComplete(lines: seq<string>, dictionary: seq<string>, n: nat, li: nat, t: Token)
    requires li < n <= |lines| && t in Tokens(lines[li])
    requires Flagged(lines[li], t, dictionary)
    ensures Site(li, t) in SitesUpTo(lines, dictionary, n)
  {
    var prev := SitesUpTo(lines, dictionary, n - 1);
    var last := LineSites(lines[n - 1], n - 1, dictionary, Tokens(lines[n - 1]));
    assert SitesUpTo(lines, dictionary, n) == prev + last;
    if li < n - 1 {
      SitesUpToComplete(lines, dictionary, n - 1, li, t);
      assert Site(li, t) in prev;
    } else {
      LineSitesComplete(lines[li], li, dictionary, Tokens(lines[li]), t);
      assert Site(li, t) in last;
    }
  }

  /** Sites come first by line, then by offset. */
  predicate SitesInScanOrder(sites: seq<Site>) {
    forall i, j :: 0 <= i < j < |sites| ==>
      sites[i].lineIndex < sites[j].lineIndex
      || (sites[i].lineIndex == sites[j].lineIndex && sites[i].token.offset < sites[j].token.offset)
  }

  /** Appending the sites of a later line keeps the scan order. */
  lemma AppendLineInScanOrder(prefix: seq<Site>, last: seq<Site>, li: nat)
    requires SitesInScanOrder(prefix)
    requires forall s :: s in prefix ==> s.lineIndex < li
    requires forall s :: s in last ==> s.lineIndex == li
    requires forall i, j :: 0 <= i < j < |last| ==> last[i].token.offset < last[j].token.offset
    ensures SitesInScanOrder(prefix + last)
  {
    var rs := prefix + last;
    forall i, j | 0 <= i < j < |rs|
      ensures rs[i].lineIndex < rs[j].lineIndex
           || (rs[i].lineIndex == rs[j].lineIndex && rs[i].token.offset < rs[j].token.offset)
    {
      if j < |prefix| {
        assert rs[i] == prefix[i] && rs[j] == prefix[j];
      } else if i < |prefix| {
        assert rs[i] in prefix && rs[j] in last;
      } else {
        assert rs[i] == last[i - |prefix|] && rs[j] == last[j - |prefix|];
      }
    }
  }

  lemma {:induction false} SitesUpToOrdered(lines: seq<string>, dictionary: seq<string>, n: nat)
    requires n <= |lines|
    ensures SitesInScanOrder(SitesUpTo(lines, dictionary, n))
  {
    if n > 0 {
      var li := n - 1;
      SitesUpToOrdered(lines, dictionary, li);
      TokenOffsetsIncrease(lines[li]);
      LineSitesOrdered(lines[li], li, dictionary, Tokens(lines[li]));
      AppendLineInScanOrder(SitesUpTo(lines, dictionary, li), LineSites(lines[li], li, dictionary, Tokens(lines[li])), li);
    }
  }

  /** Records come first by line, then by column. */
  predicate InScanOrder(rs: seq<MispelledResult>) {
    forall i, j :: 0 <= i < j < |rs| ==>
      rs[i].lineNumber < rs[j].lineNumber
      || (rs[i].lineNumber == rs[j].lineNumber && rs[i].columnNumber < rs[j].columnNumber)
  }

  /** Record `i` reports a flagged match: the word is the lower-cased match,
      it is not in the dictionary and not all digits, the line number is the
      0-based line index plus 1, the column number the match's offset plus 1,
      and the suggestions and context are those of that match. */
  lemma ResultsAreFlaggedMatches(content: string, dictionary: seq<string>, limit: int, i: nat)
    requires i < |Check(content, dictionary, limit)|
    ensures
      var lines := Lines(content);
      var s := SitesUpTo(lines, dictionary, |lines|)[i];
      var r := Check(content, dictionary, limit)[i];
      && s.lineIndex < |lines|
      && s.token in Tokens(lines[s.lineIndex])
      && r.word == ToLower(s.token.text)
      && r.word !in dictionary
      && !IsOnlyDigits(s.token.text)
      && r.lineNumber == s.lineIndex + 1
      && r.columnNumber == s.token.offset + 1
      && r.suggestions == Suggestions(r.word, dictionary, limit)
      && r.context == GetContext(lines[s.lineIndex], s.token.text, ContextRadius)
  {
    var lines := Lines(content);
    var sites := SitesUpTo(lines, dictionary, |lines|);
    SitesUpToSound(lines, dictionary, |lines|);
    assert sites[i] in sites;
  }

  /** The records are in line-major, then left-to-right order; in particular
      no position is reported twice. */
  lemma ResultsInScanOrder(content: string, dictionary: seq<string>, limit: int)
    ensures InScanOrder(Check(content, dictionary, limit))
  {
    var lines := Lines(content);
    SitesUpToOrdered(lines, dictionary, |lines|);
  }

  /** A match is reported exactly when it is flagged, and whatever is reported
      at its position is its own record. So a match whose lower-cased text is in
      the dictionary gets no record, and every flagged occurrence gets one,
      repeated words included. */
  lemma ReportedIffFlagged(content: string, dictionary: seq<string>, limit: int, li: nat, t: Token)
    requires li < |Lines(content)| && t in Tokens(Lines(content)[li])
    ensures
      var line := Lines(content)[li];
      && (Report(line, li, t, dictionary, limit) in Check(content, dictionary, limit) <==> Flagged(line, t, dictionary))
      && (forall r :: r in Check(content, dictionary, limit) && r.lineNumber == li + 1 && r.columnNumber == t.offset + 1 ==>
            r == Report(line, li, t, dictionary, limit) && Flagged(line, t, dictionary))
  {
    var lines := Lines(content);
    var line := lines[li];
    var sites := SitesUpTo(lines, dictionary, |lines|);
    var rs := Check(content, dictionary, limit);
    SitesUpToSound(lines, dictionary, |lines|);
    forall r | r in rs && r.lineNumber == li + 1 && r.columnNumber == t.offset + 1
      ensures r == Report(line, li, t, dictionary, limit) && Flagged(line, t, dictionary)
    {
      var i :| 0 <= i < |rs| && rs[i] == r;
      var s := sites[i];
      assert s in sites;
      assert s.lineIndex == li;
      TokenAtOffsetUnique(line, s.token, t);
    }
    if Flagged(line, t, dictionary) {
      SitesUpToComplete(lines, dictionary, |lines|, li, t);
      var i :| 0 <= i < |sites| && sites[i] == Site(li, t);
      assert rs[i] == Report(line, li, t, dictionary, limit);
    }
  }

  /** A match whose lower-cased text is in the dictionary yields no record at
      its position. */
  lemma InDictionaryNotReported(content: string, dictionary: seq<string>, limit: int, li: nat, t: Token)
    requires li < |Lines(content)| && t in Tokens(Lines(content)[li])
    requires ToLower(t.text) in dictionary
    ensures forall r :: r in Check(content, dictionary, limit) ==>
      !(r.lineNumber == li + 1 && r.columnNumber == t.offset + 1)
  {
    ReportedIffFlagged(content, dictionary, limit, li, t);
  }
}
