/** Topic patterns: the recursive matcher over dot-separated words, and what a match means. */
module TopicMatching {

  type Word = string

  // ----- words of a key

  function Split(s: string): (words: seq<Word>)
    ensures words != []
  {
    if s == [] then [""]
    else if s[0] == '.' then [""] + Split(s[1..])
    else
      var rest := Split(s[1..]);
      [[s[0]] + rest[0]] + rest[1..]
  }

  function Join(words: seq<Word>): string
    requires words != []
  {
    if |words| == 1 then words[0] else words[0] + "." + Join(words[1..])
  }

  predicate Dotless(words: seq<Word>) { forall w <- words :: '.' !in w }

  /** A key is its words joined by dots, and no word holds one. */
  lemma {:induction false} SplitParts(s: string)
    ensures Dotless(Split(s)) && Join(Split(s)) == s
  {
    if s != [] {
      SplitParts(s[1..]);
      var rest := Split(s[1..]);
      if s[0] == '.' {
        assert ([""] + rest)[1..] == rest;
      } else {
        var words := [[s[0]] + rest[0]] + rest[1..];
        assert words[1..] == rest[1..];
      }
      assert s == [s[0]] + s[1..];
    }
  }

  /** There is only one way to read a key as words. */
  lemma {:induction false} WordsAreUnique(words: seq<Word>)
    requires words != [] && Dotless(words)
    ensures Split(Join(words)) == words
    decreases |words|, |words[0]|
  {
    var w := words[0];
    if w == "" {
      if |words| > 1 {
        WordsAreUnique(words[1..]);
        assert Join(words) == "." + Join(words[1..]);
        assert Join(words)[1..] == Join(words[1..]);
        assert words == [""] + words[1..];
      }
    } else {
      var shorter := [w[1..]] + words[1..];
      assert forall x <- w[1..] :: x in w;
      WordsAreUnique(shorter);
      assert shorter[1..] == words[1..];
      assert Join(words) == [w[0]] + Join(shorter);
      assert Join(words)[1..] == Join(shorter);
      assert w == [w[0]] + w[1..];
      assert words == [w] + words[1..];
    }
  }

  // ----- matching

  function Match(p: seq<Word>, k: seq<Word>): bool
    decreases |p| + |k|
  {
    if p == [] then k == []
    else if p[0] == "#" then Match(p[1..], k) || (k != [] && Match(p, k[1..]))
    else if k == [] then false
    else (p[0] == "*" || p[0] == k[0]) && Match(p[1..], k[1..])
  }

  function TopicMatches(pattern: string, key: string): bool { Match(Split(pattern), Split(key)) }

  /** What one word of a pattern stands for: `*` for one word, `#` for any number, another for itself. */
  predicate Takes(w: Word, part: seq<Word>) {
    if w == "#" then true else if w == "*" then |part| == 1 else part == [w]
  }

  function Flatten(parts: seq<seq<Word>>): seq<Word> {
    if parts == [] then [] else parts[0] + Flatten(parts[1..])
  }

  /** `parts` divides the key into one part for each word of the pattern, in order. */
  predicate Divides(p: seq<Word>, k: seq<Word>, parts: seq<seq<Word>>) {
    |parts| == |p| && Flatten(parts) == k && forall i | 0 <= i < |p| :: Takes(p[i], parts[i])
  }

  lemma DividesOneMore(p: seq<Word>, k: seq<Word>, first: seq<Word>, rest: seq<seq<Word>>)
    requires p != [] && Takes(p[0], first) && Divides(p[1..], k, rest)
    ensures Divides(p, first + k, [first] + rest)
  {
    assert ([first] + rest)[1..] == rest;
    forall i | 0 <= i < |p| ensures Takes(p[i], ([first] + rest)[i]) {
      assert i > 0 ==> p[i] == p[1..][i - 1];
    }
  }

  lemma DividesRest(p: seq<Word>, k: seq<Word>, parts: seq<seq<Word>>)
    requires p != [] && Divides(p, k, parts)
    ensures Takes(p[0], parts[0]) && k == parts[0] + Flatten(parts[1..])
    ensures Divides(p[1..], Flatten(parts[1..]), parts[1..])
  {}

  /** A match gives a way to divide the key. */
  lemma {:induction false} MatchDivides(p: seq<Word>, k: seq<Word>) returns (parts: seq<seq<Word>>)
    requires Match(p, k)
    ensures Divides(p, k, parts)
    decreases |p| + |k|
  {
    if p == [] {
      parts := [];
    } else if p[0] == "#" && !Match(p[1..], k) {
      var rest := MatchDivides(p, k[1..]);
      DividesRest(p, k[1..], rest);
      DividesOneMore(p, Flatten(rest[1..]), [k[0]] + rest[0], rest[1..]);
      parts := [[k[0]] + rest[0]] + rest[1..];
      assert k == [k[0]] + k[1..] == ([k[0]] + rest[0]) + Flatten(rest[1..]);
    } else {
      var taken := if p[0] == "#" then 0 else 1;
      var rest := MatchDivides(p[1..], k[taken..]);
      assert k == k[..taken] + k[taken..];
      DividesOneMore(p, k[taken..], k[..taken], rest);
      parts := [k[..taken]] + rest;
    }
  }

  /** A way to divide the key gives a match: a hash takes its words one at a time. */
  lemma {:induction false} DividesMatches(p: seq<Word>, k: seq<Word>, parts: seq<seq<Word>>)
    requires Divides(p, k, parts)
    ensures Match(p, k)
    decreases |p| + |k|
  {
    if p != [] {
      DividesRest(p, k, parts);
      var first, rest := parts[0], parts[1..];
      if p[0] == "#" && first != [] {
        DividesOneMore(p, Flatten(rest), first[1..], rest);
        assert k[1..] == first[1..] + Flatten(rest);
        DividesMatches(p, k[1..], [first[1..]] + rest);
      } else {
        assert k[|first|..] == Flatten(rest);
        DividesMatches(p[1..], Flatten(rest), rest);
      }
    }
  }

  ghost predicate Divisible(p: seq<Word>, k: seq<Word>) { exists parts :: Divides(p, k, parts) }

  /** The matcher accepts exactly the keys whose words divide into what the pattern's words stand for. */
  lemma MatchIsDivision(pattern: string, key: string)
    ensures TopicMatches(pattern, key) <==> Divisible(Split(pattern), Split(key))
  {
    var p, k := Split(pattern), Split(key);
    if Match(p, k) {
      var parts := MatchDivides(p, k);
    }
    if Divisible(p, k) {
      var parts :| Divides(p, k, parts);
      DividesMatches(p, k, parts);
    }
  }
}
