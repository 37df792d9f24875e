/** Skill matching by the cosine of two bags of words. Scores are compared through their squares, which
    are exact; the square of a score is never negative, so the order is the same. */
module SkillLookup {
  import opened Text

  // ---------------------------------------------------------------- tokens

  const STOPWORDS: set<string> := {
    "the", "a", "an", "is", "are", "was", "were", "be", "been", "being",
    "have", "has", "had", "do", "does", "did", "will", "would", "could",
    "should", "may", "might", "can", "shall", "to", "of", "in", "for",
    "on", "with", "at", "by", "from", "as", "into", "through", "during",
    "before", "after", "above", "below", "between", "and", "but", "or",
    "nor", "not", "so", "yet", "both", "either", "neither", "each",
    "every", "all", "any", "few", "more", "most", "other", "some",
    "such", "no", "only", "own", "same", "than", "too", "very", "just",
    "about", "also", "if", "then", "else", "when", "where", "why", "how",
    "this", "that", "these", "those", "it", "its", "he", "she", "they",
    "them", "we", "you", "i", "me", "my", "your", "his", "her", "our"
  }

  predicate IsSeparator(c: char) {
    IsSpace(c) || c in ",;:.!?()[]{}\"'"
  }

  function ToLower(s: string): string {
    seq(|s|, i requires 0 <= i < |s| => LowerChar(s[i]))
  }

  function SkipSeparators(s: string): (r: string)
    ensures |r| <= |s|
    ensures s != [] && IsSeparator(s[0]) ==> |r| < |s|
  {
    if s != [] && IsSeparator(s[0]) then SkipSeparators(s[1..]) else s
  }

  /** Splitting at runs of separators; `field` is what has been read of the current field. */
  function SplitRuns(s: string, field: string): seq<string>
    decreases |s|
  {
    if s == [] then [field]
    else if IsSeparator(s[0]) then [field] + SplitRuns(SkipSeparators(s), "")
    else SplitRuns(s[1..], field + [s[0]])
  }

  predicate IsKept(token: string, stop: set<string>) {
    token != "" && token !in stop
  }

  function Keep(tokens: seq<string>, stop: set<string>): seq<string> {
    if tokens == [] then []
    else (if IsKept(tokens[0], stop) then [tokens[0]] else []) + Keep(tokens[1..], stop)
  }

  /** The tokens of a text that are counted, for a given set of stop words. */
  function WordsBut(text: string, stop: set<string>): seq<string> {
    Keep(SplitRuns(ToLower(text), ""), stop)
  }

  function Words(text: string): seq<string> {
    WordsBut(text, STOPWORDS)
  }

  lemma KeepCons(x: string, tokens: seq<string>, stop: set<string>)
    ensures Keep([x] + tokens, stop) == (if IsKept(x, stop) then [x] else []) + Keep(tokens, stop)
  {
    assert ([x] + tokens)[1..] == tokens;
  }

  lemma {:induction false} KeepConcat(a: seq<string>, b: seq<string>, stop: set<string>)
    ensures Keep(a + b, stop) == Keep(a, stop) + Keep(b, stop)
  {
    if a == [] {
      assert a + b == b;
    } else {
      KeepConcat(a[1..], b, stop);
      assert (a + b)[1..] == a[1..] + b;
      Regroup(if IsKept(a[0], stop) then [a[0]] else [], Keep(a[1..], stop), Keep(b, stop));
    }
  }

  /** Leading separators make no difference to the words. */
  lemma SkippedIsKept(s: string, stop: set<string>)
    ensures Keep(SplitRuns(SkipSeparators(s), ""), stop) == Keep(SplitRuns(s, ""), stop)
  {
    if s != [] && IsSeparator(s[0]) {
      KeepCons("", SplitRuns(SkipSeparators(s), ""), stop);
    }
  }

  lemma {:induction false} SkipConcat(s: string, c: char, t: string)
    requires IsSeparator(c)
    ensures SkipSeparators(s + [c] + t) ==
            if SkipSeparators(s) == [] then SkipSeparators(t) else SkipSeparators(s) + [c] + t
    decreases |s|
  {
    var all := s + [c] + t;
    if s == [] {
      assert all[1..] == t;
    } else if IsSeparator(s[0]) {
      SkipConcat(s[1..], c, t);
      assert all[1..] == s[1..] + [c] + t;
    }
  }

  lemma {:induction false} WordsOfConcat(s: string, c: char, t: string, field: string, stop: set<string>)
    requires IsSeparator(c)
    ensures Keep(SplitRuns(s + [c] + t, field), stop) == Keep(SplitRuns(s, field), stop) + Keep(SplitRuns(t, ""), stop)
    decreases |s|
  {
    if s == [] || IsSeparator(s[0]) {
      if s != [] && SkipSeparators(s) != [] {
        WordsOfConcat(SkipSeparators(s), c, t, "", stop);
      }
      WordsAfterField(s, c, t, field, stop);
      WordsOfConcatStep(s, field, stop, Keep(SplitRuns(t, ""), stop));
    } else {
      WordsOfConcat(s[1..], c, t, field + [s[0]], stop);
      assert (s + [c] + t)[1..] == s[1..] + [c] + t;
    }
  }

  /** The first field of `s + [c] + t` ends at once: what follows are the words after the separators. */
  lemma WordsAfterField(s: string, c: char, t: string, field: string, stop: set<string>)
    requires IsSeparator(c) && (s == [] || IsSeparator(s[0]))
    ensures Keep(SplitRuns(s + [c] + t, field), stop) ==
            (if IsKept(field, stop) then [field] else [])
            + Keep(SplitRuns(if SkipSeparators(s) == [] then t else SkipSeparators(s) + [c] + t, ""), stop)
  {
    var all := s + [c] + t;
    SkipConcat(s, c, t);
    SkippedIsKept(t, stop);
    KeepCons(field, SplitRuns(SkipSeparators(all), ""), stop);
  }

  lemma WordsOfConcatStep(s: string, field: string, stop: set<string>, rest: seq<string>)
    requires s == [] || IsSeparator(s[0])
    ensures Keep(SplitRuns(s, field), stop) + rest ==
            (if IsKept(field, stop) then [field] else [])
              + (if s == [] then rest else Keep(SplitRuns(SkipSeparators(s), ""), stop) + rest)
  {
    var front := if IsKept(field, stop) then [field] else [];
    if s == [] {
      KeepCons(field, [], stop);
      assert [field] + [] == [field];
      assert front + [] == front;
    } else {
      KeepCons(field, SplitRuns(SkipSeparators(s), ""), stop);
      Regroup(front, Keep(SplitRuns(SkipSeparators(s), ""), stop), rest);
    }
  }

  // ---------------------------------------------------------------- bags of words

  type Bag = multiset<string>

  /** The frequency map `counts` holds the words of `bag` with their multiplicities, and nothing else. */
  ghost predicate Represents(counts: map<string, nat>, bag: Bag) {
    && (forall w :: w in counts <==> w in bag)
    && (forall w :: w in counts ==> counts[w] == bag[w])
  }

  method BagOfWords(text: string, stop: set<string>) returns (counts: map<string, nat>)
    ensures Represents(counts, multiset(WordsBut(text, stop)))
  {
    counts := CountKept(SplitRuns(ToLower(text), ""), stop);
  }

  /** The counting loop of `bagOfWords`. */
  method CountKept(tokens: seq<string>, stop: set<string>) returns (counts: map<string, nat>)
    ensures Represents(counts, multiset(Keep(tokens, stop)))
  {
    counts := map[];
    for i := 0 to |tokens|
      invariant Represents(counts, multiset(Keep(tokens[..i], stop)))
    {
      var token := tokens[i];
      KeepSnoc(tokens, i, stop);
      if |token| == 0 || token in stop {
        continue;
      }
      CountOne(counts, Keep(tokens[..i], stop), token);
      counts := counts[token := (if token in counts then counts[token] else 0) + 1];
    }
    assert tokens[..|tokens|] == tokens;
  }

  lemma CountOne(counts: map<string, nat>, words: seq<string>, w: string)
    requires Represents(counts, multiset(words))
    ensures Represents(counts[w := (if w in counts then counts[w] else 0) + 1], multiset(words + [w]))
  {
    assert multiset(words + [w]) == multiset(words) + multiset{w};
  }

  lemma KeepSnoc(tokens: seq<string>, i: nat, stop: set<string>)
    requires i < |tokens|
    ensures Keep(tokens[..i + 1], stop)
            == Keep(tokens[..i], stop) + (if IsKept(tokens[i], stop) then [tokens[i]] else [])
  {
    assert tokens[..i + 1] == tokens[..i] + [tokens[i]];
    KeepConcat(tokens[..i], [tokens[i]], stop);
    assert Keep([tokens[i]], stop) == if IsKept(tokens[i], stop) then [tokens[i]] else [];
  }

  /** The separators, written out. */
  const SEPARATORS := " \t\n\r\U{000B}\U{000C},;:.!?()[]{}\"'"

  /** The bag of two texts put together, with any separator between them, is the sum of their bags; in
      particular the order of the two does not matter. */
  lemma BagOfConcat(s: string, c: char, t: string)
    requires c in SEPARATORS
    ensures Words(s + [c] + t) == Words(s) + Words(t)
    ensures multiset(Words(s + [c] + t)) == multiset(Words(s)) + multiset(Words(t))
    ensures multiset(Words(s + [c] + t)) == multiset(Words(t + [c] + s))
  {
    LowerConcat(s, c, t);
    LowerConcat(t, c, s);
    WordsOfConcat(ToLower(s), c, ToLower(t), "", STOPWORDS);
    WordsOfConcat(ToLower(t), c, ToLower(s), "", STOPWORDS);
  }

  lemma LowerConcat(s: string, c: char, t: string)
    requires IsSeparator(c)
    ensures ToLower(s + [c] + t) == ToLower(s) + [c] + ToLower(t)
  {
  }

  lemma {:induction false} SplitRunsOfToken(s: string, field: string)
    requires forall i :: 0 <= i < |s| ==> !IsSeparator(s[i])
    ensures SplitRuns(s, field) == [field + s]
    decreases |s|
  {
    if s == [] {
      assert field + s == field;
    } else {
      SplitRunsOfToken(s[1..], field + [s[0]]);
      assert field + [s[0]] + s[1..] == field + s;
    }
  }

  lemma OneToken(token: string, stop: set<string>)
    requires forall i :: 0 <= i < |token| ==> !IsSeparator(token[i])
    ensures Keep(SplitRuns(token, ""), stop) == if IsKept(token, stop) then [token] else []
  {
    SplitRunsOfToken(token, "");
    assert "" + token == token;
    KeepCons(token, [], stop);
    assert [token] + [] == [token];
  }

  lemma WordOfToken(s: string, stop: set<string>)
    requires forall i :: 0 <= i < |s| ==> !IsSeparator(s[i])
    ensures WordsBut(s, stop) == if s == "" || ToLower(s) in stop then [] else [ToLower(s)]
  {
    OneToken(ToLower(s), stop);
  }

  /** A text without a separator is one word, unless it is empty or a stop word. With the words of texts put
      together this determines the words of every text. */
  lemma WordsOfToken(s: string)
    requires forall i :: 0 <= i < |s| ==> s[i] !in SEPARATORS
    ensures Words(s) == if s == "" || ToLower(s) in STOPWORDS then [] else [ToLower(s)]
  {
    forall i | 0 <= i < |s|
      ensures !IsSeparator(s[i])
    {
      assert s[i] !in SEPARATORS;
    }
    WordOfToken(s, STOPWORDS);
  }

  // ---------------------------------------------------------------- sums over sparse vectors

  ghost function Keys(a: Bag): set<string> {
    set w | w in a
  }

  /** The inner product of two bags over the words in `ws`, taken in some order. */
  ghost function DotOver(ws: set<string>, a: Bag, b: Bag): nat {
    if ws == {} then 0
    else
      var w :| w in ws;
      a[w] * b[w] + DotOver(ws - {w}, a, b)
  }

  /** Any word may come first: the sum does not depend on the order. */
  lemma {:induction false} DotPick(ws: set<string>, w: string, a: Bag, b: Bag)
    requires w in ws
    ensures DotOver(ws, a, b) == a[w] * b[w] + DotOver(ws - {w}, a, b)
  {
    var v :| v in ws && DotOver(ws, a, b) == a[v] * b[v] + DotOver(ws - {v}, a, b);
    if v != w {
      DotPick(ws - {v}, w, a, b);
      DotPick(ws - {w}, v, a, b);
      assert ws - {v} - {w} == ws - {w} - {v};
    }
  }

  /** Words that one of the bags lacks contribute nothing. */
  lemma {:induction false} DotShrink(ws: set<string>, vs: set<string>, a: Bag, b: Bag)
    requires vs <= ws && forall w :: w in ws - vs ==> a[w] * b[w] == 0
    ensures DotOver(ws, a, b) == DotOver(vs, a, b)
    decreases ws
  {
    if ws != vs {
      var w := ElementBeyond(vs, ws);
      DotPick(ws, w, a, b);
      DotShrink(ws - {w}, vs, a, b);
    }
  }

  lemma {:induction false} DotSwap(ws: set<string>, a: Bag, b: Bag)
    ensures DotOver(ws, a, b) == DotOver(ws, b, a)
    decreases ws
  {
    if ws != {} {
      var w :| w in ws;
      DotPick(ws, w, a, b);
      DotPick(ws, w, b, a);
      DotSwap(ws - {w}, a, b);
    }
  }

  ghost function Dot(a: Bag, b: Bag): nat {
    DotOver(Keys(a), a, b)
  }

  lemma DotIsSymmetric(a: Bag, b: Bag)
    ensures Dot(a, b) == Dot(b, a)
  {
    var all := Keys(a) + Keys(b);
    DotShrink(all, Keys(a), a, b);
    DotShrink(all, Keys(b), b, a);
    DotSwap(all, a, b);
  }

  /** Word by word: the product of a bag with a single word is that word's count in the bag. */
  lemma DotOfWord(w: string, b: Bag)
    ensures Dot(multiset{w}, b) == b[w]
  {
    assert Keys(multiset{w}) == {w};
    DotPick({w}, w, multiset{w}, b);
  }

  lemma Distribute(a: int, b: int, c: int, x: int, y: int)
    ensures (a + b) * c + (x + y) == (a * c + x) + (b * c + y)
  {
  }

  lemma {:induction false} DotOverAdds(ws: set<string>, a: Bag, b: Bag, c: Bag)
    ensures DotOver(ws, a + b, c) == DotOver(ws, a, c) + DotOver(ws, b, c)
    decreases ws
  {
    if ws != {} {
      var w :| w in ws;
      DotPick(ws, w, a + b, c);
      DotPick(ws, w, a, c);
      DotPick(ws, w, b, c);
      DotOverAdds(ws - {w}, a, b, c);
      Distribute(a[w], b[w], c[w], DotOver(ws - {w}, a, c), DotOver(ws - {w}, b, c));
    }
  }

  /** The product is additive. With single words and symmetry this determines it for all bags. */
  lemma DotAdds(a: Bag, b: Bag, c: Bag)
    ensures Dot(a + b, c) == Dot(a, c) + Dot(b, c)
  {
    var all := Keys(a) + Keys(b);
    DotShrink(all, Keys(a + b), a + b, c);
    DotShrink(all, Keys(a), a, c);
    DotShrink(all, Keys(b), b, c);
    DotOverAdds(all, a, b, c);
  }

  lemma {:induction false} DotIsPositive(ws: set<string>, a: Bag, b: Bag)
    ensures DotOver(ws, a, b) > 0 <==> exists w :: w in ws && w in a && w in b
    decreases ws
  {
    if ws != {} {
      var w :| w in ws;
      DotPick(ws, w, a, b);
      DotIsPositive(ws - {w}, a, b);
      SharedWord(ws, w, a, b);
    }
  }

  lemma SharedWord(ws: set<string>, w: string, a: Bag, b: Bag)
    requires w in ws
    ensures a[w] * b[w] > 0 <==> w in a && w in b
    ensures (exists v :: v in ws && v in a && v in b) <==>
            (w in a && w in b) || exists v :: v in ws - {w} && v in a && v in b
  {
    if w in a && w in b {
      PositiveProduct(a[w], b[w]);
    }
  }

  // ---------------------------------------------------------------- Cauchy-Schwarz

  lemma SquareNotNegative(x: int)
    ensures x * x >= 0
    ensures x != 0 ==> x * x > 0
  {
  }

  /** (p a - q b)^2, multiplied out with the running sums. */
  lemma ExpandSquare(p: int, q: int, a: int, b: int, aa: int, ab: int, bb: int)
    ensures p * p * (a * a + aa) - 2 * (p * q * (a * b + ab)) + q * q * (b * b + bb)
         == (p * a - q * b) * (p * a - q * b) + (p * p * aa - 2 * (p * q * ab) + q * q * bb)
  {
    assert (p * a - q * b) * (p * a - q * b) == p * p * (a * a) - 2 * (p * q * (a * b)) + q * q * (b * b) by {
      assert (p * a) * (p * a) == p * p * (a * a);
      assert (q * b) * (q * b) == q * q * (b * b);
      assert (p * a) * (q * b) == p * q * (a * b);
    }
    assert p * p * (a * a + aa) == p * p * (a * a) + p * p * aa;
    assert q * q * (b * b + bb) == q * q * (b * b) + q * q * bb;
    assert p * q * (a * b + ab) == p * q * (a * b) + p * q * ab;
  }

  /** The squared length of `p a - q b` over `ws`, in terms of the three inner products. */
  ghost function Form(ws: set<string>, a: Bag, b: Bag, p: int, q: int): int {
    p * p * DotOver(ws, a, a) - 2 * (p * q * DotOver(ws, a, b)) + q * q * DotOver(ws, b, b)
  }

  lemma FormPick(ws: set<string>, w: string, a: Bag, b: Bag, p: int, q: int)
    requires w in ws
    ensures Form(ws, a, b, p, q) == (p * a[w] - q * b[w]) * (p * a[w] - q * b[w]) + Form(ws - {w}, a, b, p, q)
  {
    DotPick(ws, w, a, a);
    DotPick(ws, w, a, b);
    DotPick(ws, w, b, b);
    ExpandSquare(p, q, a[w], b[w], DotOver(ws - {w}, a, a), DotOver(ws - {w}, a, b), DotOver(ws - {w}, b, b));
  }

  lemma {:induction false} FormNotNegative(ws: set<string>, a: Bag, b: Bag, p: int, q: int)
    ensures Form(ws, a, b, p, q) >= 0
    decreases ws
  {
    if ws != {} {
      var w :| w in ws;
      FormPick(ws, w, a, b, p, q);
      FormNotNegative(ws - {w}, a, b, p, q);
      SquareNotNegative(p * a[w] - q * b[w]);
    }
  }

  /** The form vanishes only when `p a` and `q b` agree on every word. */
  lemma FormZero(ws: set<string>, a: Bag, b: Bag, p: int, q: int, w: string)
    requires Form(ws, a, b, p, q) == 0 && w in ws
    ensures p * a[w] == q * b[w]
  {
    FormPick(ws, w, a, b, p, q);
    FormNotNegative(ws - {w}, a, b, p, q);
    SquareNotNegative(p * a[w] - q * b[w]);
  }

  /** With p = D and q = A the form is A (A B - D D). */
  lemma FormAtDot(aa: int, ab: int, bb: int)
    ensures ab * ab * aa - 2 * (ab * aa * ab) + aa * aa * bb == aa * (aa * bb - ab * ab)
  {
    assert ab * aa * ab == ab * ab * aa;
    assert aa * (aa * bb - ab * ab) == aa * aa * bb - aa * (ab * ab);
  }

  lemma SquaredLength(a: Bag, w: string)
    requires w in a
    ensures Dot(a, a) > 0
  {
    DotPick(Keys(a), w, a, a);
    assert a[w] * a[w] > 0;
  }

  /** Dot(a, b), written over the words of either bag. */
  lemma OverAllWords(a: Bag, b: Bag)
    ensures var all := Keys(a) + Keys(b);
            DotOver(all, a, a) == Dot(a, a) && DotOver(all, a, b) == Dot(a, b) && DotOver(all, b, b) == Dot(b, b)
  {
    var all := Keys(a) + Keys(b);
    DotShrink(all, Keys(a), a, a);
    DotShrink(all, Keys(a), a, b);
    DotShrink(all, Keys(b), b, b);
  }

  lemma Conclude(aa: nat, ab: nat, bb: nat)
    requires aa > 0 && ab * ab * aa - 2 * (ab * aa * ab) + aa * aa * bb >= 0
    ensures ab * ab <= aa * bb
  {
    FormAtDot(aa, ab, bb);
    var rest := aa * bb - ab * ab;
    assert aa * rest >= 0;
  }

  /** Cauchy-Schwarz, for bags of any size. */
  lemma CauchySchwarz(a: Bag, b: Bag)
    ensures Dot(a, b) * Dot(a, b) <= Dot(a, a) * Dot(b, b)
  {
    if a == multiset{} {
      assert Keys(a) == {};
    } else {
      var w :| w in a;
      SquaredLength(a, w);
      OverAllWords(a, b);
      FormNotNegative(Keys(a) + Keys(b), a, b, Dot(a, b), Dot(a, a));
      Conclude(Dot(a, a), Dot(a, b), Dot(b, b));
    }
  }

  // ---------------------------------------------------------------- cosine

  /** The square of the cosine of two bags; 0 when either of them is empty. */
  ghost function ScoreSq(a: Bag, b: Bag): real {
    if Dot(a, a) == 0 || Dot(b, b) == 0 then 0.0
    else (Dot(a, b) * Dot(a, b)) as real / (Dot(a, a) * Dot(b, b)) as real
  }

  /** One of the three summing loops of `cosine`, whatever order the map is iterated in. */
  method SumProducts(a: map<string, nat>, b: map<string, nat>, ghost bagA: Bag, ghost bagB: Bag) returns (sum: nat)
    requires Represents(a, bagA) && Represents(b, bagB)
    ensures sum == Dot(bagA, bagB)
  {
    sum := 0;
    var rest := a.Keys;
    SameElements(rest, Keys(bagA));
    while rest != {}
      invariant rest <= a.Keys
      invariant sum + DotOver(rest, bagA, bagB) == Dot(bagA, bagB)
      decreases rest
    {
      var key :| key in rest;
      DotPick(rest, key, bagA, bagB);
      if key in b {
        sum := sum + a[key] * b[key];
      }
      rest := rest - {key};
    }
  }

  method Cosine(a: map<string, nat>, b: map<string, nat>, ghost bagA: Bag, ghost bagB: Bag) returns (scoreSq: real)
    requires Represents(a, bagA) && Represents(b, bagB)
    ensures scoreSq == ScoreSq(bagA, bagB)
  {
    var dotProduct := SumProducts(a, b, bagA, bagB);
    var magA := SumProducts(a, a, bagA, bagA);
    var magB := SumProducts(b, b, bagB, bagB);
    if magA == 0 || magB == 0 {
      return 0.0;
    }
    PositiveProduct(magA, magB);
    return (dotProduct * dotProduct) as real / (magA * magB) as real;
  }

  lemma QuotientTimes(x: int, y: int)
    requires y > 0
    ensures x as real / y as real * y as real == x as real
  {
  }

  lemma SquareOfZero(x: nat, y: nat, z: nat)
    requires (x == 0 || y == 0) && z * z <= x * y
    ensures z * z == x * y == 0
  {
  }

  lemma TimesLengths(aa: nat, ab: nat, bb: nat, score: real)
    requires ab * ab <= aa * bb
    requires score == if aa == 0 || bb == 0 then 0.0 else (ab * ab) as real / (aa * bb) as real
    ensures score * (aa * bb) as real == (ab * ab) as real
  {
    if aa > 0 && bb > 0 {
      PositiveProduct(aa, bb);
      QuotientTimes(ab * ab, aa * bb);
    } else {
      SquareOfZero(aa, bb, ab);
    }
  }

  /** The score is the cosine: its square times the squared lengths is the squared product. */
  lemma ScoreTimesLengths(a: Bag, b: Bag)
    ensures ScoreSq(a, b) * (Dot(a, a) * Dot(b, b)) as real == (Dot(a, b) * Dot(a, b)) as real
  {
    CauchySchwarz(a, b);
    TimesLengths(Dot(a, a), Dot(a, b), Dot(b, b), ScoreSq(a, b));
  }

  /** Two bags have a positive score if and only if they share a word. */
  lemma ScoreIsPositive(a: Bag, b: Bag)
    ensures ScoreSq(a, b) > 0.0 <==> exists w :: w in a && w in b
  {
    DotIsPositive(Keys(a), a, b);
    if w :| w in a && w in b {
      SquaredLength(a, w);
      SquaredLength(b, w);
      assert w in Keys(a);
      PositiveProduct(Dot(a, a), Dot(b, b));
      PositiveProduct(Dot(a, b), Dot(a, b));
      PositiveQuotient(Dot(a, b) * Dot(a, b), Dot(a, a) * Dot(b, b));
    } else {
      assert Dot(a, b) == 0;
    }
  }

  lemma PositiveQuotient(x: int, y: int)
    requires x > 0 && y > 0
    ensures x as real / y as real > 0.0
  {
    assert x as real == (x as real / y as real) * y as real;
  }

  lemma PositiveProduct(x: int, y: int)
    requires x > 0 && y > 0
    ensures x * y > 0
  {
  }

  lemma RealQuotient(x: real, y: real)
    requires 0.0 <= x && 0.0 < y
    ensures x / y >= 0.0
    ensures x / y <= 1.0 <==> x <= y
    ensures x / y == 1.0 <==> x == y
  {
    var r := x / y;
    assert x == r * y;
    assert r < 0.0 ==> r * y < 0.0;
    assert (r - 1.0) * y == x - y;
    assert r > 1.0 ==> (r - 1.0) * y > 0.0;
    assert r < 1.0 ==> (1.0 - r) * y > 0.0;
  }

  lemma QuotientRange(x: int, y: int)
    requires 0 <= x && 0 < y
    ensures x as real / y as real >= 0.0
    ensures x as real / y as real <= 1.0 <==> x <= y
    ensures x as real / y as real == 1.0 <==> x == y
  {
    RealQuotient(x as real, y as real);
  }

  /** A score lies between 0 and 1 and does not depend on which text comes first. */
  lemma ScoreRange(a: Bag, b: Bag)
    ensures 0.0 <= ScoreSq(a, b) <= 1.0
    ensures ScoreSq(a, b) == ScoreSq(b, a)
  {
    DotIsSymmetric(a, b);
    CauchySchwarz(a, b);
    var aa, ab, bb := Dot(a, a), Dot(a, b), Dot(b, b);
    assert aa * bb == bb * aa;
    if aa > 0 && bb > 0 {
      PositiveProduct(aa, bb);
      SquareNotNegative(ab);
      QuotientRange(ab * ab, aa * bb);
    }
  }

  /** Every word occurs in the two bags in the ratio q : p. */
  ghost predicate Proportional(a: Bag, b: Bag, p: nat, q: nat) {
    p > 0 && q > 0 && forall w :: p * a[w] == q * b[w]
  }

  lemma {:induction false} DotScales(ws: set<string>, a: Bag, b: Bag, c: Bag, p: nat, q: nat)
    requires Proportional(a, b, p, q)
    ensures p * DotOver(ws, a, c) == q * DotOver(ws, b, c)
    decreases ws
  {
    if ws != {} {
      var w :| w in ws;
      DotPick(ws, w, a, c);
      DotPick(ws, w, b, c);
      DotScales(ws - {w}, a, b, c, p, q);
      ScaleStep(p, q, a[w], b[w], c[w], DotOver(ws - {w}, a, c), DotOver(ws - {w}, b, c));
    }
  }

  lemma ScaleStep(p: int, q: int, a: int, b: int, c: int, x: int, y: int)
    requires p * a == q * b && p * x == q * y
    ensures p * (a * c + x) == q * (b * c + y)
  {
    calc {
      p * (a * c + x);
      (p * a) * c + p * x;
      (q * b) * c + q * y;
      q * (b * c + y);
    }
  }

  lemma CrossMultiply(p: nat, q: nat, aa: nat, ab: nat, bb: nat)
    requires p > 0 && q > 0 && p * aa == q * ab && p * ab == q * bb
    ensures ab * ab == aa * bb
  {
    calc {
      (p * q) * (ab * ab);
      (p * ab) * (q * ab);
      (q * bb) * (p * aa);
      (p * q) * (aa * bb);
    }
    CancelFactor(p * q, ab * ab, aa * bb) by { PositiveProduct(p, q); }
  }

  lemma CancelFactor(f: int, x: int, y: int)
    requires f > 0 && f * x == f * y
    ensures x == y
  {
    assert f * (x - y) == f * x - f * y;
    SquareNotNegative(x - y);
  }

  lemma FormAtEquality(aa: int, ab: int, bb: int)
    requires ab * ab == aa * bb
    ensures ab * ab * aa - 2 * (ab * aa * ab) + aa * aa * bb == 0
  {
    FormAtDot(aa, ab, bb);
  }

  lemma EqualityCase(a: Bag, b: Bag, w: string)
    requires Dot(a, b) * Dot(a, b) == Dot(a, a) * Dot(b, b)
    ensures Dot(a, b) * a[w] == Dot(a, a) * b[w]
  {
    var all := Keys(a) + Keys(b);
    if w in all {
      OverAllWords(a, b);
      FormAtEquality(Dot(a, a), Dot(a, b), Dot(b, b));
      FormZero(all, a, b, Dot(a, b), Dot(a, a), w);
    }
  }

  /** The score is 1 exactly when the two bags are not empty and one is a multiple of the other, up to a
      common factor; equal bags that are not empty are the simplest case. */
  lemma ScoreIsOne(a: Bag, b: Bag)
    ensures ScoreSq(a, b) == 1.0 <==> a != multiset{} && exists p, q :: Proportional(a, b, p, q)
    ensures a != multiset{} ==> ScoreSq(a, a) == 1.0
  {
    if a == multiset{} {
      assert Keys(a) == {};
    } else {
      var w :| w in a;
      SquaredLength(a, w);
      OneIfProportional(a, a, 1, 1);
      forall p, q | Proportional(a, b, p, q)
        ensures ScoreSq(a, b) == 1.0
      {
        OneIfProportional(a, b, p, q);
      }
      if ScoreSq(a, b) == 1.0 {
        ProportionalIfOne(a, b);
      }
    }
  }

  lemma OneIfProportional(a: Bag, b: Bag, p: nat, q: nat)
    requires a != multiset{} && Proportional(a, b, p, q)
    ensures ScoreSq(a, b) == 1.0
  {
    var all := Keys(a) + Keys(b);
    OverAllWords(a, b);
    DotSwap(all, a, b);
    DotScales(all, a, b, a, p, q);
    DotScales(all, a, b, b, p, q);
    CrossMultiply(p, q, Dot(a, a), Dot(a, b), Dot(b, b));
    var w :| w in a;
    PositiveProduct(p, a[w]);
    assert q * b[w] > 0;
    assert w in b;
    SquaredLength(a, w);
    SquaredLength(b, w);
    PositiveProduct(Dot(a, a), Dot(b, b));
    QuotientRange(Dot(a, b) * Dot(a, b), Dot(a, a) * Dot(b, b));
  }

  lemma ProportionalIfOne(a: Bag, b: Bag)
    requires ScoreSq(a, b) == 1.0
    ensures Proportional(a, b, Dot(a, b), Dot(a, a))
  {
    PositiveProduct(Dot(a, a), Dot(b, b));
    SquareNotNegative(Dot(a, b));
    QuotientRange(Dot(a, b) * Dot(a, b), Dot(a, a) * Dot(b, b));
    forall w
      ensures Dot(a, b) * a[w] == Dot(a, a) * b[w]
    {
      EqualityCase(a, b, w);
    }
  }

  // ---------------------------------------------------------------- picking a skill

  datatype Skill = Skill(name: string, description: Option<string>, tags: Option<seq<string>>, path: Option<string>)

  datatype SkillMatch = SkillMatch(name: string, path: Option<string>, scoreSq: real)

  function SkillText(skill: Skill): string {
    var description := if skill.description.Some? then skill.description.value else "";
    var tags := if skill.tags.Some? then Join(skill.tags.value, ' ') else "";
    Join([skill.name, description, tags], ' ')
  }

  /** The words of texts one after the other. */
  function WordsOfEach(texts: seq<string>, stop: set<string>): seq<string> {
    if texts == [] then [] else WordsBut(texts[0], stop) + WordsOfEach(texts[1..], stop)
  }

  /** The words by which a skill is found: those of its name, of its description and of each tag. */
  function SkillWords(skill: Skill, stop: set<string>): seq<string> {
    WordsBut(skill.name, stop)
    + (match skill.description
       case None => []
       case Some(description) => WordsBut(description, stop))
    + (match skill.tags
       case None => []
       case Some(tags) => WordsOfEach(tags, stop))
  }

  lemma WordsOfTwo(s: string, c: char, t: string, stop: set<string>)
    requires IsSeparator(c)
    ensures WordsBut(s + [c] + t, stop) == WordsBut(s, stop) + WordsBut(t, stop)
  {
    LowerConcat(s, c, t);
    WordsOfConcat(ToLower(s), c, ToLower(t), "", stop);
  }

  lemma NoWordsBut(stop: set<string>)
    ensures WordsBut("", stop) == []
  {
    assert ToLower("") == "";
    OneToken("", stop);
  }

  lemma {:induction false} WordsOfJoin(texts: seq<string>, c: char, stop: set<string>)
    requires IsSeparator(c)
    ensures WordsBut(Join(texts, c), stop) == WordsOfEach(texts, stop)
  {
    if texts == [] {
      NoWordsBut(stop);
    } else if |texts| == 1 {
      assert WordsOfEach(texts[1..], stop) == [];
      assert WordsBut(texts[0], stop) + [] == WordsBut(texts[0], stop);
    } else {
      WordsOfJoin(texts[1..], c, stop);
      WordsOfTwo(texts[0], c, Join(texts[1..], c), stop);
    }
  }

  /** The text that is scored has exactly these words. */
  lemma SkillTextWords(skill: Skill, stop: set<string>)
    ensures WordsBut(SkillText(skill), stop) == SkillWords(skill, stop)
  {
    var description := if skill.description.Some? then skill.description.value else "";
    var tags := if skill.tags.Some? then Join(skill.tags.value, ' ') else "";
    NoWordsBut(stop);
    assert WordsBut(description, stop) ==
           match skill.description case None => [] case Some(description) => WordsBut(description, stop);
    if skill.tags.Some? {
      WordsOfJoin(skill.tags.value, ' ', stop);
    }
    assert WordsBut(tags, stop) == match skill.tags case None => [] case Some(tags) => WordsOfEach(tags, stop);
    WordsOfThree(skill.name, description, tags, ' ', stop);
  }

  lemma WordsOfThree(a: string, b: string, c: string, separator: char, stop: set<string>)
    requires IsSeparator(separator)
    ensures WordsBut(Join([a, b, c], separator), stop) == WordsBut(a, stop) + WordsBut(b, stop) + WordsBut(c, stop)
  {
    WordsOfJoin([a, b, c], separator, stop);
    EachOfThree(a, b, c, stop);
  }

  lemma EachOfThree(a: string, b: string, c: string, stop: set<string>)
    ensures WordsOfEach([a, b, c], stop) == WordsBut(a, stop) + WordsBut(b, stop) + WordsBut(c, stop)
  {
    assert [a, b, c][1..] == [b, c] && [b, c][1..] == [c] && [c][1..] == [];
    assert WordsOfEach([c], stop) == WordsBut(c, stop);
    Regroup(WordsBut(a, stop), WordsBut(b, stop), WordsBut(c, stop));
  }

  ghost function SkillScore(task: Bag, skill: Skill, stop: set<string>): real {
    ScoreSq(task, multiset(SkillWords(skill, stop)))
  }

  /** Whether the word occurs in the skill's name, in its description or in one of its tags. */
  predicate Mentions(skill: Skill, word: string) {
    || word in Words(skill.name)
    || (skill.description.Some? && word in Words(skill.description.value))
    || (skill.tags.Some? && exists i :: 0 <= i < |skill.tags.value| && word in Words(skill.tags.value[i]))
  }

  lemma {:induction false} InWordsOfEach(texts: seq<string>, stop: set<string>, word: string)
    ensures word in WordsOfEach(texts, stop) <==> exists i :: 0 <= i < |texts| && word in WordsBut(texts[i], stop)
  {
    if texts != [] {
      InWordsOfEach(texts[1..], stop, word);
      if i :| 0 <= i < |texts| && word in WordsBut(texts[i], stop) {
        assert i > 0 ==> texts[1..][i - 1] == texts[i];
      }
      if i :| 0 <= i < |texts[1..]| && word in WordsBut(texts[1..][i], stop) {
        assert texts[i + 1] == texts[1..][i];
      }
    }
  }

  lemma MentionsItsWords(skill: Skill, word: string)
    ensures word in SkillWords(skill, STOPWORDS) <==> Mentions(skill, word)
  {
    if skill.tags.Some? {
      InWordsOfEach(skill.tags.value, STOPWORDS, word);
    }
  }

  /** A skill has a positive score if and only if its name, its description or a tag has a word of the
      context; only such skills can be picked. */
  lemma FoundByItsWords(context: string, skill: Skill)
    ensures SkillScore(multiset(Words(context)), skill, STOPWORDS) > 0.0
            <==> exists word :: word in Words(context) && Mentions(skill, word)
  {
    var task, words := multiset(Words(context)), multiset(SkillWords(skill, STOPWORDS));
    ScoreIsPositive(task, words);
    forall word
      ensures word in task && word in words <==> word in Words(context) && Mentions(skill, word)
    {
      MentionsItsWords(skill, word);
    }
  }

  function Product(x: real, y: real): (r: real)
    ensures x > 0.0 && y > 0.0 ==> r > 0.0
  {
    x * y
  }

  /** `score < threshold`, for a score known by its square. */
  predicate BelowThreshold(scoreSq: real, threshold: real) {
    threshold > 0.0 && scoreSq < Product(threshold, threshold)
  }

  ghost function Scores(task: Bag, skills: seq<Skill>, stop: set<string>): seq<real> {
    seq(|skills|, i requires 0 <= i < |skills| => SkillScore(task, skills[i], stop))
  }

  /** `i` is the first position of the best score. */
  predicate IsFirstBest(scores: seq<real>, i: nat) {
    && i < |scores|
    && (forall j :: 0 <= j < |scores| ==> scores[j] <= scores[i])
    && (forall j :: 0 <= j < i ==> scores[j] < scores[i])
  }

  predicate Qualifies(scoreSq: real, threshold: real) {
    scoreSq > 0.0 && !BelowThreshold(scoreSq, threshold)
  }

  /** What pickSkill returns when the skills have these scores. */
  ghost predicate IsPick(skills: seq<Skill>, scores: seq<real>, threshold: real, pick: Option<SkillMatch>)
    requires |skills| == |scores|
  {
    match pick
    case None => forall i :: 0 <= i < |scores| ==> !Qualifies(scores[i], threshold)
    case Some(m) => exists i: nat :: IsFirstBest(scores, i) && Qualifies(scores[i], threshold)
                                     && m == SkillMatch(skills[i].name, skills[i].path, scores[i])
  }

  method PickSkill(taskContext: string, skills: seq<Skill>, threshold: real) returns (pick: Option<SkillMatch>)
    ensures IsPick(skills, Scores(multiset(Words(taskContext)), skills, STOPWORDS), threshold, pick)
  {
    pick := PickSkillBut(taskContext, skills, threshold, STOPWORDS);
  }

  method PickSkillBut(taskContext: string, skills: seq<Skill>, threshold: real, stop: set<string>)
    returns (pick: Option<SkillMatch>)
    ensures IsPick(skills, Scores(multiset(WordsBut(taskContext, stop)), skills, stop), threshold, pick)
  {
    if |skills| == 0 {
      return None;
    }
    ghost var task := multiset(WordsBut(taskContext, stop));
    var taskVec := BagOfWords(taskContext, stop);
    ghost var scores := Scores(task, skills, stop);
    var bestScore, bestSkill := BestSkill(taskVec, task, skills, stop);
    BestIsFirst(scores);
    pick := Conclusion(skills, scores, threshold, bestScore, bestSkill);
  }

  method ScoreSkill(taskVec: map<string, nat>, ghost task: Bag, skills: seq<Skill>, i: nat, stop: set<string>)
    returns (score: real)
    requires Represents(taskVec, task) && i < |skills|
    ensures score == Scores(task, skills, stop)[i]
  {
    var skillVec := BagOfWords(SkillText(skills[i]), stop);
    SkillTextWords(skills[i], stop);
    score := Cosine(taskVec, skillVec, task, multiset(SkillWords(skills[i], stop)));
  }

  /** The best positive score and its first position, or 0 and -1. */
  function Best(scores: seq<real>): (real, int) {
    if scores == [] then (0.0, -1)
    else
      var n := |scores| - 1;
      var best := Best(scores[..n]);
      if scores[n] > best.0 then (scores[n], n) else best
  }

  lemma {:induction false} BestIsFirst(scores: seq<real>)
    ensures var (score, i) := Best(scores);
            -1 <= i < |scores| &&
            if i < 0 then score == 0.0 && forall j :: 0 <= j < |scores| ==> scores[j] <= 0.0
            else score == scores[i] > 0.0 && IsFirstBest(scores, i)
  {
    if scores != [] {
      var n := |scores| - 1;
      var before := scores[..n];
      BestIsFirst(before);
      assert forall j :: 0 <= j < n ==> before[j] == scores[j];
      assert Best(scores) == if scores[n] > Best(before).0 then (scores[n], n) else Best(before);
    }
  }

  /** The loop of pickSkill. */
  method BestSkill(taskVec: map<string, nat>, ghost task: Bag, skills: seq<Skill>, stop: set<string>)
      returns (bestScore: real, bestSkill: int)
    requires Represents(taskVec, task)
    ensures (bestScore, bestSkill) == Best(Scores(task, skills, stop))
  {
    ghost var scores := Scores(task, skills, stop);
    bestScore, bestSkill := 0.0, -1;
    for i := 0 to |skills|
      invariant (bestScore, bestSkill) == Best(scores[..i])
    {
      var score := ScoreSkill(taskVec, task, skills, i, stop);
      assert scores[..i + 1][..i] == scores[..i];
      if score > bestScore {
        bestScore, bestSkill := score, i;
      }
    }
    assert scores[..|skills|] == scores;
  }

  /** The last two statements of pickSkill. */
  method Conclusion(skills: seq<Skill>, ghost scores: seq<real>, threshold: real, bestScore: real, bestSkill: int)
      returns (pick: Option<SkillMatch>)
    requires |skills| == |scores| && -1 <= bestSkill < |skills|
    requires bestScore == if bestSkill < 0 then 0.0 else scores[bestSkill]
    requires bestSkill >= 0 ==> bestScore > 0.0 && IsFirstBest(scores, bestSkill)
    requires bestSkill < 0 ==> forall j :: 0 <= j < |scores| ==> scores[j] <= 0.0
    ensures IsPick(skills, scores, threshold, pick)
  {
    if bestSkill < 0 || BelowThreshold(bestScore, threshold) {
      return None;
    }
    assert Qualifies(scores[bestSkill], threshold);
    return Some(SkillMatch(skills[bestSkill].name, skills[bestSkill].path, bestScore));
  }

  lemma PickIsUnique(skills: seq<Skill>, scores: seq<real>, threshold: real, pick1: Option<SkillMatch>,
                     pick2: Option<SkillMatch>)
    requires |skills| == |scores|
    requires IsPick(skills, scores, threshold, pick1) && IsPick(skills, scores, threshold, pick2)
    ensures pick1 == pick2
  {
    if pick1.Some? && pick2.Some? {
      var i: nat :| IsFirstBest(scores, i) && pick1.value == SkillMatch(skills[i].name, skills[i].path, scores[i]);
      var j: nat :| IsFirstBest(scores, j) && pick2.value == SkillMatch(skills[j].name, skills[j].path, scores[j]);
      assert i == j;
    }
  }

  /** Texts with the same bag of words get the same pick. */
  lemma PickDependsOnBag(context1: string, context2: string, skills: seq<Skill>, threshold: real,
                         pick1: Option<SkillMatch>, pick2: Option<SkillMatch>)
    requires multiset(Words(context1)) == multiset(Words(context2))
    requires IsPick(skills, Scores(multiset(Words(context1)), skills, STOPWORDS), threshold, pick1)
    requires IsPick(skills, Scores(multiset(Words(context2)), skills, STOPWORDS), threshold, pick2)
    ensures pick1 == pick2
  {
    PickIsUnique(skills, Scores(multiset(Words(context1)), skills, STOPWORDS), threshold, pick1, pick2);
  }

  // ---------------------------------------------------------------- order, case and punctuation

  lemma LowerTwice(s: string)
    ensures ToLower(ToLower(s)) == ToLower(s)
  {
    forall i | 0 <= i < |s|
      ensures ToLower(ToLower(s))[i] == ToLower(s)[i]
    {
      assert LowerChar(LowerChar(s[i])) == LowerChar(s[i]);
    }
  }

  lemma LowerAlike(s: string, t: string)
    requires EqualUpToCase(s, t)
    ensures ToLower(s) == ToLower(t)
  {
    forall i | 0 <= i < |s|
      ensures ToLower(s)[i] == ToLower(t)[i]
    {
      assert IsCaseOf(s[i], t[i]);
    }
  }

  /** Texts that differ in case only have the same words. */
  lemma WordsIgnoreCase(s: string, t: string)
    requires EqualUpToCase(s, t)
    ensures Words(s) == Words(t)
  {
    LowerAlike(s, t);
  }

  lemma WordsOfLower(s: string)
    ensures Words(ToLower(s)) == Words(s)
  {
    LowerTwice(s);
  }

  /** A text as its parts with the characters between them; every text is one such, with its separators
      between its fields. Empty parts stand for runs of separators. */
  function Weave(parts: seq<string>, between: seq<char>): string
    requires |parts| == |between| + 1
  {
    if between == [] then parts[0] else parts[0] + [between[0]] + Weave(parts[1..], between[1..])
  }

  predicate AreSeparators(between: seq<char>) {
    forall i :: 0 <= i < |between| ==> between[i] in SEPARATORS
  }

  function AllWords(parts: seq<string>): seq<string> {
    WordsOfEach(parts, STOPWORDS)
  }

  /** The words of a text are those of its parts, whatever separates them. */
  lemma {:induction false} WordsOfParts(parts: seq<string>, between: seq<char>)
    requires |parts| == |between| + 1 && AreSeparators(between)
    ensures Words(Weave(parts, between)) == AllWords(parts)
  {
    if between == [] {
      assert AllWords(parts[1..]) == [];
      assert Words(parts[0]) + [] == Words(parts[0]);
    } else {
      WordsOfParts(parts[1..], between[1..]);
      BagOfConcat(parts[0], between[0], Weave(parts[1..], between[1..]));
    }
  }

  /** What the words of a text do not depend on is left out here: empty parts, and case. */
  function Content(parts: seq<string>): seq<string> {
    if parts == [] then []
    else (if parts[0] == "" then [] else [ToLower(parts[0])]) + Content(parts[1..])
  }

  /** Empty parts do not count. */
  lemma {:induction false} EmptyPartsDoNotCount(a: seq<string>, b: seq<string>)
    ensures Content(a + [""] + b) == Content(a + b)
  {
    if a == [] {
      assert ([] + [""] + b)[1..] == b && [] + b == b;
    } else {
      EmptyPartsDoNotCount(a[1..], b);
      assert (a + [""] + b)[1..] == a[1..] + [""] + b && (a + b)[1..] == a[1..] + b;
    }
  }

  lemma {:induction false} AllWordsConcat(a: seq<string>, b: seq<string>)
    ensures AllWords(a + b) == AllWords(a) + AllWords(b)
  {
    if a == [] {
      assert a + b == b;
    } else {
      AllWordsConcat(a[1..], b);
      assert (a + b)[1..] == a[1..] + b;
      Regroup(Words(a[0]), AllWords(a[1..]), AllWords(b));
    }
  }

  lemma OnePart(s: string)
    ensures AllWords([s]) == Words(s)
  {
    assert AllWords([s][1..]) == [];
  }

  lemma {:induction false} ContentHasTheWords(parts: seq<string>)
    ensures AllWords(Content(parts)) == AllWords(parts)
  {
    if parts != [] {
      ContentHasTheWords(parts[1..]);
      var first := if parts[0] == "" then [] else [ToLower(parts[0])];
      AllWordsConcat(first, Content(parts[1..]));
      if parts[0] == "" {
        NoWordsBut(STOPWORDS);
      } else {
        WordsOfLower(parts[0]);
        OnePart(ToLower(parts[0]));
      }
    }
  }

  lemma WithoutOne<T>(b: seq<T>, i: nat)
    requires i < |b|
    ensures b == b[..i] + [b[i]] + b[i + 1..] && multiset(b) == multiset{b[i]} + multiset(b[..i] + b[i + 1..])
  {
    assert b == b[..i] + [b[i]] + b[i + 1..];
  }

  lemma TakeAway<T>(x: T, m: multiset<T>, n: multiset<T>)
    requires multiset{x} + m == multiset{x} + n
    ensures m == n
  {
    assert m == multiset{x} + m - multiset{x};
  }

  lemma {:induction false} PermutedWords(a: seq<string>, b: seq<string>)
    requires multiset(a) == multiset(b)
    ensures multiset(AllWords(a)) == multiset(AllWords(b))
    decreases |a|
  {
    if a == [] {
      assert |multiset(b)| == 0;
    } else {
      assert a[0] in multiset(b);
      var i :| 0 <= i < |b| && b[i] == a[0];
      WithoutOne(a, 0);
      WithoutOne(b, i);
      assert a[..0] + a[0 + 1..] == a[1..];
      TakeAway(a[0], multiset(a[1..]), multiset(b[..i] + b[i + 1..]));
      PermutedWords(a[1..], b[..i] + b[i + 1..]);
      PickOut(b, i);
      PickOut(a, 0);
    }
  }

  lemma PickOut(b: seq<string>, i: nat)
    requires i < |b|
    ensures multiset(AllWords(b)) == multiset(Words(b[i])) + multiset(AllWords(b[..i] + b[i + 1..]))
  {
    WithoutOne(b, i);
    PickOutBetween(b[..i], b[i], b[i + 1..]);
  }

  lemma PickOutBetween(before: seq<string>, part: string, after: seq<string>)
    ensures multiset(AllWords(before + [part] + after)) == multiset(Words(part)) + multiset(AllWords(before + after))
  {
    AllWordsConcat(before + [part], after);
    AllWordsConcat(before, [part]);
    AllWordsConcat(before, after);
    OnePart(part);
  }

  /** Two texts whose parts are the same up to order, case and empty parts, with any separators between
      them, get the same pick. */
  lemma PickIgnoresOrderCaseAndPunctuation(parts1: seq<string>, between1: seq<char>,
                                           parts2: seq<string>, between2: seq<char>,
                                           skills: seq<Skill>, threshold: real,
                                           pick1: Option<SkillMatch>, pick2: Option<SkillMatch>)
    requires |parts1| == |between1| + 1 && AreSeparators(between1)
    requires |parts2| == |between2| + 1 && AreSeparators(between2)
    requires multiset(Content(parts1)) == multiset(Content(parts2))
    requires IsPick(skills, Scores(multiset(Words(Weave(parts1, between1))), skills, STOPWORDS), threshold, pick1)
    requires IsPick(skills, Scores(multiset(Words(Weave(parts2, between2))), skills, STOPWORDS), threshold, pick2)
    ensures pick1 == pick2
  {
    SameBag(parts1, between1, parts2, between2);
    PickDependsOnBag(Weave(parts1, between1), Weave(parts2, between2), skills, threshold, pick1, pick2);
  }

  lemma SameBag(parts1: seq<string>, between1: seq<char>, parts2: seq<string>, between2: seq<char>)
    requires |parts1| == |between1| + 1 && AreSeparators(between1)
    requires |parts2| == |between2| + 1 && AreSeparators(between2)
    requires multiset(Content(parts1)) == multiset(Content(parts2))
    ensures multiset(Words(Weave(parts1, between1))) == multiset(Words(Weave(parts2, between2)))
  {
    WordsOfParts(parts1, between1);
    WordsOfParts(parts2, between2);
    ContentHasTheWords(parts1);
    ContentHasTheWords(parts2);
    PermutedWords(Content(parts1), Content(parts2));
  }

  /** `root` is the score itself, of which the model keeps the square. */
  predicate IsRoot(root: real, scoreSq: real) {
    root >= 0.0 && root * root == scoreSq
  }

  lemma SquaresInOrder(x: real, y: real)
    requires x >= 0.0 && y >= 0.0
    ensures x < y <==> x * x < y * y
  {
    if x < y {
      assert y * y - x * x == (y - x) * (y + x);
      ProductIsPositive(y - x, y + x);
    } else {
      assert x * x - y * y == (x - y) * (x + y);
      ProductNotNegative(x - y, x + y);
    }
  }

  lemma ProductIsPositive(x: real, y: real)
    requires x > 0.0 && y > 0.0
    ensures x * y > 0.0
  {
  }

  lemma ProductNotNegative(x: real, y: real)
    requires x >= 0.0 && y >= 0.0
    ensures x * y >= 0.0
  {
  }

  /** Comparing squares is comparing the score with the threshold. */
  lemma BelowThresholdExactly(root: real, scoreSq: real, threshold: real)
    requires IsRoot(root, scoreSq)
    ensures BelowThreshold(scoreSq, threshold) <==> root < threshold
    ensures Qualifies(scoreSq, threshold) <==> root > 0.0 && root >= threshold
  {
    if threshold > 0.0 {
      SquaresInOrder(root, threshold);
    }
    SquaresInOrder(0.0, root);
  }

  /** `i` is the first of the best scores, and it is positive and not below the threshold. */
  predicate IsBestRoot(roots: seq<real>, threshold: real, i: nat) {
    && i < |roots| && roots[i] > 0.0 && roots[i] >= threshold
    && (forall j :: 0 <= j < |roots| ==> roots[j] <= roots[i])
    && (forall j :: 0 <= j < i ==> roots[j] < roots[i])
  }

  lemma FirstBestRoot(roots: seq<real>, scores: seq<real>, i: nat)
    requires |roots| == |scores| && forall j :: 0 <= j < |scores| ==> IsRoot(roots[j], scores[j])
    requires i < |scores|
    ensures IsFirstBest(scores, i) <==>
            && (forall j :: 0 <= j < |roots| ==> roots[j] <= roots[i])
            && (forall j :: 0 <= j < i ==> roots[j] < roots[i])
  {
    forall j | 0 <= j < |scores|
      ensures roots[j] < roots[i] <==> scores[j] < scores[i]
      ensures roots[j] <= roots[i] <==> scores[j] <= scores[i]
    {
      assert IsRoot(roots[j], scores[j]) && IsRoot(roots[i], scores[i]);
      SquaresInOrder(roots[j], roots[i]);
      SquaresInOrder(roots[i], roots[j]);
    }
  }

  /** In terms of the scores themselves: the pick is the first skill with the best score, if that is positive and not
      below the threshold; and otherwise there is none. */
  lemma PickByScore(skills: seq<Skill>, scores: seq<real>, roots: seq<real>, threshold: real, pick: Option<SkillMatch>)
    requires |skills| == |scores| == |roots| && IsPick(skills, scores, threshold, pick)
    requires forall j :: 0 <= j < |scores| ==> IsRoot(roots[j], scores[j])
    ensures match pick
            case None => forall i :: 0 <= i < |roots| ==> roots[i] == 0.0 || roots[i] < threshold
            case Some(m) => exists i: nat :: IsBestRoot(roots, threshold, i)
                                             && m == SkillMatch(skills[i].name, skills[i].path, scores[i])
  {
    if pick.Some? {
      var i: nat :| IsFirstBest(scores, i) && Qualifies(scores[i], threshold)
                    && pick.value == SkillMatch(skills[i].name, skills[i].path, scores[i]);
      FirstBestRoot(roots, scores, i);
      BelowThresholdExactly(roots[i], scores[i], threshold);
      assert IsBestRoot(roots, threshold, i);
    } else {
      forall i | 0 <= i < |roots|
        ensures roots[i] == 0.0 || roots[i] < threshold
      {
        BelowThresholdExactly(roots[i], scores[i], threshold);
      }
    }
  }

  /** With a positive threshold there is no pick exactly when every score is below it. */
  lemma NoPickMeansAllBelow(skills: seq<Skill>, scores: seq<real>, threshold: real, pick: Option<SkillMatch>)
    requires |skills| == |scores| && IsPick(skills, scores, threshold, pick) && threshold > 0.0
    ensures pick.None? <==> forall i :: 0 <= i < |scores| ==> BelowThreshold(scores[i], threshold)
  {
    if pick.Some? {
      var i: nat :| IsFirstBest(scores, i) && Qualifies(scores[i], threshold);
      assert !BelowThreshold(scores[i], threshold);
    } else {
      forall i | 0 <= i < |scores|
        ensures BelowThreshold(scores[i], threshold)
      {
        assert !Qualifies(scores[i], threshold);
      }
    }
  }
}
