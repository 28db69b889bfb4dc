/** String helpers the spell checker takes from the JavaScript runtime:
    `String.prototype.split` on one separator character, `Array.prototype.join`,
    `Array.prototype.indexOf` and the ASCII part of `toLowerCase`. */
module Text {

  /** `s.split(sep)` for a one-character separator: the pieces between separators,
      always at least one (the empty string splits into `[""]`). */
  function Split(s: string, sep: char): (r: seq<string>)
    ensures |r| >= 1
    ensures forall k :: 0 <= k < |r| ==> sep !in r[k]
    decreases |s|
  {
    if |s| == 0 then [""]
    else
      var rest := Split(s[1..], sep);
      if s[0] == sep then [""] + rest
      else [[s[0]] + rest[0]] + rest[1..]
  }

  /** `ws.join(sep)`: the pieces with one separator between neighbours. */
  function Join(ws: seq<string>, sep: char): string
    decreases |ws|
  {
    if |ws| == 0 then ""
    else if |ws| == 1 then ws[0]
    else ws[0] + [sep] + Join(ws[1..], sep)
  }

  /** Splitting a string whose first piece `a` is separator-free glues `a`
      onto the first piece of the rest. */
  lemma {:induction false} SplitPrefix(a: string, t: string, sep: char)
    requires sep !in a
    ensures Split(a + t, sep) == [a + Split(t, sep)[0]] + Split(t, sep)[1..]
    decreases |a|
  {
    if |a| > 0 {
      assert (a + t)[1..] == a[1..] + t;
      SplitPrefix(a[1..], t, sep);
      assert [a[0]] + (a[1..] + Split(t, sep)[0]) == a + Split(t, sep)[0];
    } else {
      var r := Split(t, sep);
      assert a + t == t && a + r[0] == r[0];
      assert r == [r[0]] + r[1..];
    }
  }

  /** Joining the pieces of a split gives the original string back. */
  lemma {:induction false} JoinSplit(s: string, sep: char)
    ensures Join(Split(s, sep), sep) == s
    decreases |s|
  {
    if |s| > 0 {
      var rest := Split(s[1..], sep);
      JoinSplit(s[1..], sep);
      if s[0] != sep {
        JoinConsFirst([s[0]], rest, sep);
      }
    }
  }

  /** Prepending `x` to the first piece prepends it to the joined string. */
  lemma {:induction false} JoinConsFirst(x: string, ws: seq<string>, sep: char)
    requires |ws| >= 1
    ensures Join([x + ws[0]] + ws[1..], sep) == x + Join(ws, sep)
  {
    var v := [x + ws[0]] + ws[1..];
    if |ws| > 1 {
      assert v[1..] == ws[1..];
    }
  }

  /** Splitting a join of separator-free pieces gives the pieces back. */
  lemma {:induction false} SplitJoin(ws: seq<string>, sep: char)
    requires |ws| >= 1
    requires forall k :: 0 <= k < |ws| ==> sep !in ws[k]
    ensures Split(Join(ws, sep), sep) == ws
    decreases |ws|
  {
    if |ws| == 1 {
      SplitPrefix(ws[0], "", sep);
      assert ws[0] + "" == ws[0];
    } else {
      SplitJoin(ws[1..], sep);
      var t := [sep] + Join(ws[1..], sep);
      assert ws[0] + [sep] + Join(ws[1..], sep) == ws[0] + t;
      SplitPrefix(ws[0], t, sep);
      assert t[1..] == Join(ws[1..], sep);
      assert Split(t, sep) == [""] + ws[1..];
      assert ws[0] + "" == ws[0];
    }
  }

  /** A join of pieces none of which is empty is empty only when there are no pieces. */
  lemma JoinEmpty(ws: seq<string>, sep: char)
    requires forall k :: 0 <= k < |ws| ==> |ws[k]| > 0
    ensures Join(ws, sep) == "" <==> ws == []
  {
    if |ws| >= 1 {
      assert |Join(ws, sep)| >= |ws[0]|;
    }
  }

  /** `s.indexOf(x)`: the first position of `x` in `s`, or -1 when it is absent. */
  function IndexOf<T(==)>(s: seq<T>, x: T): (r: int)
    ensures -1 <= r < |s|
    ensures r == -1 <==> x !in s
    ensures 0 <= r ==> s[r] == x && x !in s[..r]
    decreases |s|
  {
    if |s| == 0 then -1
    else if s[0] == x then 0
    else
      var k := IndexOf(s[1..], x);
      if k == -1 then -1 else k + 1
  }

  predicate IsUpper(c: char) {
    'A' <= c <= 'Z'
  }

  predicate IsDigit(c: char) {
    '0' <= c <= '9'
  }

  /** `\w` in a JavaScript regular expression without the `u` and `i` flags. */
  predicate IsWordChar(c: char) {
    IsUpper(c) || 'a' <= c <= 'z' || IsDigit(c) || c == '_'
  }

  function LowerChar(c: char): char {
    if IsUpper(c) then (c as int + 32) as char else c
  }

  /** `toLowerCase` restricted to ASCII: upper-case letters become lower-case,
      every other character is kept. */
  function ToLower(s: string): (r: string)
    ensures |r| == |s|
    ensures forall i :: 0 <= i < |r| ==> !IsUpper(r[i])
    ensures forall i :: 0 <= i < |r| ==> IsUpper(s[i]) || r[i] == s[i]
    ensures forall i :: 0 <= i < |r| && IsUpper(s[i]) ==> 'a' <= r[i] <= 'z' && r[i] as int == s[i] as int + 32
    ensures forall i :: 0 <= i < |r| ==> (IsWordChar(r[i]) <==> IsWordChar(s[i]))
  {
    seq(|s|, i requires 0 <= i < |s| => LowerChar(s[i]))
  }

  /** Lower-casing twice is lower-casing once. */
  lemma ToLowerIdempotent(s: string)
    ensures ToLower(ToLower(s)) == ToLower(s)
  {
  }

  /** Two strings that differ only in the case of their letters lower-case
      to the same string. */
  lemma ToLowerCaseInsensitive(s: string, t: string)
    requires |s| == |t|
    requires forall i :: 0 <= i < |s| ==>
      || s[i] == t[i]
      || (IsUpper(s[i]) && t[i] as int == s[i] as int + 32)
      || (IsUpper(t[i]) && s[i] as int == t[i] as int + 32)
    ensures ToLower(s) == ToLower(t)
  {
  }
}
