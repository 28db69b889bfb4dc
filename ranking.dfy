/** `findSuggestions`: every dictionary entry within the edit-distance limit,
    ordered by distance by a stable sort (`Array.prototype.sort`), as values. */
module Ranking {
  import opened Levenshtein

  /** One element of the `suggestions` array: `{ value, distance }`. */
  datatype Candidate = Candidate(value: string, distance: nat)

  /** What the loop of `findSuggestions` pushes for the entries `vs`: each
      entry within the limit together with its distance, in entry order. */
  function Candidates(word: string, vs: seq<string>, limit: int): (cs: seq<Candidate>)
    ensures forall c :: c in cs ==> c.distance == EditDistance(word, c.value) && c.distance <= limit
    decreases |vs|
  {
    if vs == [] then []
    else
      var v := vs[|vs| - 1];
      var d := EditDistance(word, v);
      Candidates(word, vs[..|vs| - 1], limit) + (if d <= limit then [Candidate(v, d)] else [])
  }

  /** Stable insertion: `c` goes in front of the first element whose distance
      is not smaller than its own. */
  function Insert(c: Candidate, t: seq<Candidate>): seq<Candidate>
    decreases |t|
  {
    if t == [] || c.distance <= t[0].distance then [c] + t
    else [t[0]] + Insert(c, t[1..])
  }

  /** The result of `.sort((a, b) => a.distance - b.distance)`, which is stable. */
  function SortByDistance(cs: seq<Candidate>): seq<Candidate>
    decreases |cs|
  {
    if cs == [] then [] else Insert(cs[0], SortByDistance(cs[1..]))
  }

  /** `.map((suggestion) => suggestion.value)`. */
  function Values(cs: seq<Candidate>): (vs: seq<string>)
    ensures |vs| == |cs|
  {
    seq(|cs|, i requires 0 <= i < |cs| => cs[i].value)
  }

  /** The value `findSuggestions` returns. */
  function Suggestions(word: string, dictionary: seq<string>, limit: int): seq<string> {
    Values(SortByDistance(Candidates(word, dictionary, limit)))
  }

  /** `findSuggestions`: one distance computation per dictionary entry, the
      entries within the limit pushed in order, then sorted and mapped. */
  method FindSuggestions(word: string, dictionary: seq<string>, limit: int) returns (r: seq<string>)
    ensures r == Suggestions(word, dictionary, limit)
  {
    var suggestions: seq<Candidate> := [];
    for k := 0 to |dictionary|
      invariant suggestions == Candidates(word, dictionary[..k], limit)
    {
      var value := dictionary[k];
      var distance := LevenshteinDistance(word, value);
      assert dictionary[..k + 1][..k] == dictionary[..k];
      if distance <= limit {
        suggestions := suggestions + [Candidate(value, distance)];
      }
    }
    assert dictionary[..|dictionary|] == dictionary;
    r := Values(SortByDistance(suggestions));
  }

  // ---- Specification of the ranking -------------------------------------

  predicate SortedByDistance(cs: seq<Candidate>) {
    forall i, j :: 0 <= i < j < |cs| ==> cs[i].distance <= cs[j].distance
  }

  /** The candidates of distance `d`, in their order. */
  function WithDistance(cs: seq<Candidate>, d: nat): seq<Candidate>
    decreases |cs|
  {
    if cs == [] then []
    else (if cs[0].distance == d then [cs[0]] else []) + WithDistance(cs[1..], d)
  }

  /** The entries of `vs` whose distance to `word` is `d`, in their order. */
  function AtDistance(word: string, vs: seq<string>, d: nat): seq<string>
    decreases |vs|
  {
    if vs == [] then []
    else (if EditDistance(word, vs[0]) == d then [vs[0]] else []) + AtDistance(word, vs[1..], d)
  }

  // ---- The stable sort ----------------------------------------------------

  lemma {:induction false} InsertPermutes(c: Candidate, t: seq<Candidate>)
    ensures multiset(Insert(c, t)) == multiset(t) + multiset{c}
    ensures multiset(Values(Insert(c, t))) == multiset(Values(t)) + multiset{c.value}
    decreases |t|
  {
    if !(t == [] || c.distance <= t[0].distance) {
      InsertPermutes(c, t[1..]);
      ValuesCons(t[0], Insert(c, t[1..]));
      ValuesCons(t[0], t[1..]);
      assert t == [t[0]] + t[1..];
    } else {
      ValuesCons(c, t);
    }
  }

  lemma {:induction false} InsertSorted(c: Candidate, t: seq<Candidate>)
    requires SortedByDistance(t)
    ensures SortedByDistance(Insert(c, t))
    decreases |t|
  {
    if !(t == [] || c.distance <= t[0].distance) {
      InsertSorted(c, t[1..]);
      InsertPermutes(c, t[1..]);
      var rest := Insert(c, t[1..]);
      forall x | x in rest ensures t[0].distance <= x.distance {
        assert x in multiset(rest);
        if x != c {
          assert x in t[1..];
        }
      }
    }
  }

  lemma {:induction false} InsertStable(c: Candidate, t: seq<Candidate>, d: nat)
    ensures WithDistance(Insert(c, t), d) == WithDistance([c] + t, d)
    decreases |t|
  {
    assert ([c] + t)[1..] == t;
    if !(t == [] || c.distance <= t[0].distance) {
      InsertStable(c, t[1..], d);
      assert ([t[0]] + Insert(c, t[1..]))[1..] == Insert(c, t[1..]);
      assert ([c] + t[1..])[1..] == t[1..];
    }
  }

  /** The sort is a permutation, is ordered by distance, and keeps the
      relative order of candidates of equal distance. */
  lemma {:induction false} SortIsStableSort(cs: seq<Candidate>)
    ensures multiset(SortByDistance(cs)) == multiset(cs)
    ensures multiset(Values(SortByDistance(cs))) == multiset(Values(cs))
    ensures SortedByDistance(SortByDistance(cs))
    ensures forall d: nat :: WithDistance(SortByDistance(cs), d) == WithDistance(cs, d)
    decreases |cs|
  {
    if cs != [] {
      var rest := SortByDistance(cs[1..]);
      SortIsStableSort(cs[1..]);
      InsertPermutes(cs[0], rest);
      InsertSorted(cs[0], rest);
      ValuesCons(cs[0], cs[1..]);
      assert cs == [cs[0]] + cs[1..];
      forall d: nat ensures WithDistance(SortByDistance(cs), d) == WithDistance(cs, d) {
        InsertStable(cs[0], rest, d);
        assert ([cs[0]] + rest)[1..] == rest;
      }
    }
  }

  // ---- From candidates to values ------------------------------------------

  lemma ValuesCons(c: Candidate, t: seq<Candidate>)
    ensures Values([c] + t) == [c.value] + Values(t)
  {
  }

  lemma ValuesAppend(s: seq<Candidate>, t: seq<Candidate>)
    ensures Values(s + t) == Values(s) + Values(t)
  {
  }

  lemma {:induction false} AtDistanceAppend(word: string, s: seq<string>, t: seq<string>, d: nat)
    ensures AtDistance(word, s + t, d) == AtDistance(word, s, d) + AtDistance(word, t, d)
    decreases |s|
  {
    if s == [] {
      assert s + t == t;
    } else {
      assert (s + t)[1..] == s[1..] + t;
      AtDistanceAppend(word, s[1..], t, d);
    }
  }

  /** For candidates that carry their own distance, selecting by distance
      commutes with taking the values. */
  lemma {:induction false} AtDistanceOfValues(word: string, cs: seq<Candidate>, d: nat)
    requires forall c :: c in cs ==> c.distance == EditDistance(word, c.value)
    ensures AtDistance(word, Values(cs), d) == Values(WithDistance(cs, d))
    decreases |cs|
  {
    if cs != [] {
      AtDistanceOfValues(word, cs[1..], d);
      ValuesCons(cs[0], cs[1..]);
      assert cs == [cs[0]] + cs[1..];
      ValuesAppend(if cs[0].distance == d then [cs[0]] else [], WithDistance(cs[1..], d));
    }
  }

  lemma {:induction false} CandidatesCount(word: string, vs: seq<string>, limit: int, v: string)
    ensures multiset(Values(Candidates(word, vs, limit)))[v] ==
      if EditDistance(word, v) <= limit then multiset(vs)[v] else 0
    decreases |vs|
  {
    if vs != [] {
      var n := |vs| - 1;
      CandidatesCount(word, vs[..n], limit, v);
      var d := EditDistance(word, vs[n]);
      ValuesAppend(Candidates(word, vs[..n], limit), if d <= limit then [Candidate(vs[n], d)] else []);
      assert vs == vs[..n] + [vs[n]];
    }
  }

  lemma {:induction false} CandidatesAtDistance(word: string, vs: seq<string>, limit: int, d: nat)
    ensures AtDistance(word, Values(Candidates(word, vs, limit)), d) ==
      if d <= limit then AtDistance(word, vs, d) else []
    decreases |vs|
  {
    if vs != [] {
      var n := |vs| - 1;
      CandidatesAtDistance(word, vs[..n], limit, d);
      var e := EditDistance(word, vs[n]);
      var tail := if e <= limit then [Candidate(vs[n], e)] else [];
      ValuesAppend(Candidates(word, vs[..n], limit), tail);
      AtDistanceAppend(word, Values(Candidates(word, vs[..n], limit)), Values(tail), d);
      AtDistanceAppend(word, vs[..n], [vs[n]], d);
      assert vs == vs[..n] + [vs[n]];
    }
  }

  // ---- What findSuggestions promises --------------------------------------

  /** The suggestions are exactly the dictionary entries within the limit,
      with their multiplicity; they are ordered by non-decreasing distance;
      entries of equal distance keep their dictionary order; a negative limit
      gives no suggestions. */
  lemma SuggestionsSpec(word: string, dictionary: seq<string>, limit: int)
    ensures forall v :: multiset(Suggestions(word, dictionary, limit))[v] ==
                        (if EditDistance(word, v) <= limit then multiset(dictionary)[v] else 0)
    ensures forall i, j :: 0 <= i < j < |Suggestions(word, dictionary, limit)| ==>
      EditDistance(word, Suggestions(word, dictionary, limit)[i]) <= EditDistance(word, Suggestions(word, dictionary, limit)[j])
    ensures forall d: nat :: AtDistance(word, Suggestions(word, dictionary, limit), d) ==
                             (if d <= limit then AtDistance(word, dictionary, d) else [])
    ensures limit < 0 ==> Suggestions(word, dictionary, limit) == []
  {
    var cs := Candidates(word, dictionary, limit);
    var sorted := SortByDistance(cs);
    var r := Suggestions(word, dictionary, limit);
    SortIsStableSort(cs);
    forall v ensures multiset(r)[v] == if EditDistance(word, v) <= limit then multiset(dictionary)[v] else 0 {
      CandidatesCount(word, dictionary, limit, v);
    }
    forall c | c in sorted ensures c.distance == EditDistance(word, c.value) {
      assert c in multiset(sorted);
    }
    forall i, j | 0 <= i < j < |r| ensures EditDistance(word, r[i]) <= EditDistance(word, r[j]) {
      assert sorted[i] in sorted && sorted[j] in sorted;
    }
    forall d: nat ensures AtDistance(word, r, d) == if d <= limit then AtDistance(word, dictionary, d) else [] {
      AtDistanceOfValues(word, sorted, d);
      AtDistanceOfValues(word, cs, d);
      CandidatesAtDistance(word, dictionary, limit, d);
    }
    if limit < 0 {
      assert multiset(r) == multiset{};
    }
  }
}
