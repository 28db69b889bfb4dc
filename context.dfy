/** `getContext`: the words of the line around the first match equal to the
    (original-case) word, joined by single spaces. */
module Context {
  import opened Text
  import opened Tokenizer

  /** The default `numberOfWords` of `getContext`. */
  const ContextRadius: nat := 2

  /** The window `words.slice(startIndex, endIndex)` for the first match at `k`;
      `slice` clips the end index at the length. */
  function Window(words: seq<string>, k: nat, numberOfWords: nat): (w: seq<string>)
    requires k < |words|
    ensures |w| <= 2 * numberOfWords + 1
    ensures words[k] in w
  {
    var startIndex := if k - numberOfWords < 0 then 0 else k - numberOfWords;
    var endIndex := k + numberOfWords + 1;
    var w := words[startIndex..if endIndex <= |words| then endIndex else |words|];
    assert w[k - startIndex] == words[k];
    w
  }

  function GetContext(line: string, word: string, numberOfWords: nat): string {
    ContextOf(Words(line), word, numberOfWords)
  }

  /** Words that are non-empty and hold no space. */
  predicate SpaceFree(words: seq<string>) {
    forall k :: 0 <= k < |words| ==> |words[k]| > 0 && ' ' !in words[k]
  }

  /** The words of a line are non-empty and hold no space. */
  lemma WordsAreSpaceFree(line: string)
    ensures SpaceFree(Words(line))
  {
    TokensWellFormed(line);
  }

  /** The context of `word` among `words`, as `getContext` builds it. */
  function ContextOf(words: seq<string>, word: string, numberOfWords: nat): string {
    var indexOfWord := IndexOf(words, word);
    if indexOfWord < 0 then ""
    else Join(Window(words, indexOfWord, numberOfWords), ' ')
  }

  /** The window is a slice of the words, so its words are space-free too. */
  lemma WindowSpaceFree(words: seq<string>, k: nat, numberOfWords: nat)
    requires k < |words|
    requires SpaceFree(words)
    ensures Window(words, k, numberOfWords) ==
      words[if k < numberOfWords then 0 else k - numberOfWords ..
            if k + numberOfWords + 1 <= |words| then k + numberOfWords + 1 else |words|]
    ensures SpaceFree(Window(words, k, numberOfWords))
  {
  }

  /** Joining a non-empty list of space-free words at spaces gives a non-empty
      string that splits back into the list. */
  lemma JoinSpaceFree(w: seq<string>)
    requires |w| >= 1
    requires SpaceFree(w)
    ensures Split(Join(w, ' '), ' ') == w
    ensures Join(w, ' ') != ""
  {
    SplitJoin(w, ' ');
    JoinEmpty(w, ' ');
  }

  /** For space-free words, the context is empty exactly when the word is
      not among them. */
  lemma ContextOfEmpty(words: seq<string>, word: string, numberOfWords: nat)
    requires SpaceFree(words)
    ensures ContextOf(words, word, numberOfWords) == "" <==> word !in words
  {
    var k := IndexOf(words, word);
    if k >= 0 {
      WindowSpaceFree(words, k, numberOfWords);
      JoinSpaceFree(Window(words, k, numberOfWords));
    }
  }

  /** For space-free words holding the word, splitting the context at spaces
      gives back the window around its first occurrence. */
  lemma ContextOfSplit(words: seq<string>, word: string, numberOfWords: nat)
    requires SpaceFree(words)
    requires word in words
    ensures Split(ContextOf(words, word, numberOfWords), ' ') ==
      Window(words, IndexOf(words, word), numberOfWords)
  {
    var k := IndexOf(words, word);
    WindowSpaceFree(words, k, numberOfWords);
    JoinSpaceFree(Window(words, k, numberOfWords));
  }

  /** The context is empty exactly when the word is not among the line's
      words. Otherwise, splitting it at spaces gives back the window of at most
      `2 * numberOfWords + 1` words around the first occurrence of the word,
      clipped at both ends of the line, and that window holds the word. */
  lemma ContextSpec(line: string, word: string, numberOfWords: nat)
    ensures GetContext(line, word, numberOfWords) == "" <==> word !in Words(line)
    ensures word in Words(line) ==>
      var words := Words(line);
      var k := IndexOf(words, word);
      var ws := Split(GetContext(line, word, numberOfWords), ' ');
      && ws == words[if k < numberOfWords then 0 else k - numberOfWords ..
                     if k + numberOfWords + 1 <= |words| then k + numberOfWords + 1 else |words|]
      && |ws| <= 2 * numberOfWords + 1
      && word in ws
      && word !in words[..k]
  {
    var words := Words(line);
    WordsAreSpaceFree(line);
    ContextOfEmpty(words, word, numberOfWords);
    if word in words {
      var k := IndexOf(words, word);
      ContextOfSplit(words, word, numberOfWords);
      WindowSpaceFree(words, k, numberOfWords);
    }
  }
}
