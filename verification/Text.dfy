/** Strings as the TypeScript, Go and Python sources handle them: trimming, searching, splitting into
    fields and joining them again. Whitespace is the ASCII whitespace that all three runtimes agree on. */
module Text {

  datatype Option<+T> = None | Some(value: T)

  function OrElse<T>(first: Option<T>, second: Option<T>): Option<T> {
    if first.Some? then first else second
  }

  function Get<K, V>(m: map<K, V>, key: K): Option<V> {
    if key in m then Some(m[key]) else None
  }

  lemma SameMap<K(!new), V>(a: map<K, V>, b: map<K, V>)
    requires forall key :: (key in a <==> key in b) && (key in a && key in b ==> a[key] == b[key])
    ensures a == b
  {
  }

  predicate Distinct<T(==)>(list: seq<T>) {
    forall i, j :: 0 <= i < j < |list| ==> list[i] != list[j]
  }

  function LowerChar(c: char): char {
    if 'A' <= c <= 'Z' then (c as int + 32) as char else c
  }

  /** The same character, or the same letter in upper and in lower case. */
  predicate IsCaseOf(c: char, d: char) {
    || c == d
    || ('A' <= c <= 'Z' && d as int == c as int + 32)
    || ('A' <= d <= 'Z' && c as int == d as int + 32)
  }

  predicate EqualUpToCase(s: string, t: string) {
    |s| == |t| && forall i :: 0 <= i < |s| ==> IsCaseOf(s[i], t[i])
  }

  predicate IsSpace(c: char) {
    c == ' ' || c == '\t' || c == '\n' || c == '\r' || c == '\U{000B}' || c == '\U{000C}'
  }

  predicate IsBlank(s: string) {
    forall i :: 0 <= i < |s| ==> IsSpace(s[i])
  }

  function TrimStart(s: string): (r: string)
    ensures |r| <= |s|
    ensures r != [] ==> !IsSpace(r[0])
  {
    if s != [] && IsSpace(s[0]) then TrimStart(s[1..]) else s
  }

  lemma EndsWithStep(s: string, r: string)
    requires s != [] && EndsWith(s[1..], r)
    ensures EndsWith(s, r) && s[..|s| - |r|] == [s[0]] + s[1..][..|s| - 1 - |r|]
  {
    assert s[|s| - |r|..] == s[1..][|s| - 1 - |r|..];
  }

  lemma {:induction false} TrimStartIsSuffix(s: string)
    ensures EndsWith(s, TrimStart(s))
    ensures IsBlank(s[..|s| - |TrimStart(s)|])
  {
    if s != [] && IsSpace(s[0]) {
      TrimStartIsSuffix(s[1..]);
      EndsWithStep(s, TrimStart(s[1..]));
    }
  }

  function TrimEnd(s: string): (r: string)
    ensures r <= s
    ensures IsBlank(s[|r|..])
    ensures r != [] ==> !IsSpace(r[|r| - 1])
    ensures s != [] && !IsSpace(s[0]) ==> r != []
  {
    if s != [] && IsSpace(s[|s| - 1]) then TrimEnd(s[..|s| - 1]) else s
  }

  function Trim(s: string): (r: string)
    ensures r != [] ==> !IsSpace(r[0]) && !IsSpace(r[|r| - 1])
  {
    TrimEnd(TrimStart(s))
  }

  lemma TrimBlank(s: string)
    ensures Trim(s) == [] <==> IsBlank(s)
  {
    var t := TrimStart(s);
    TrimStartIsSuffix(s);
    if t != [] {
      assert s[|s| - |t|] == t[0];
    } else {
      assert s[..|s|] == s;
    }
  }

  /** A text of blanks only, these being written out. */
  predicate IsPadding(s: string) {
    forall c :: c in s ==> c in " \t\n\r\U{000B}\U{000C}"
  }

  /** A text that neither begins nor ends with a blank. */
  predicate IsTight(s: string) {
    s != "" ==> s[0] !in " \t\n\r\U{000B}\U{000C}" && s[|s| - 1] !in " \t\n\r\U{000B}\U{000C}"
  }

  lemma PaddingIsSpace(s: string, i: nat)
    requires IsPadding(s) && i < |s|
    ensures IsSpace(s[i])
  {
    assert s[i] in s;
  }

  lemma TrimmedPadding(before: string, s: string, after: string)
    requires IsPadding(before) && IsPadding(after) && IsTight(s)
    ensures Trim(before + s + after) == s
  {
    TrimStartAfterPadding(before, s + after);
    Regroup(before, s, after);
    TrimEndBeforePadding(s, after);
    if s == "" {
      TrimStartAfterPadding(after, "");
      assert s + after == after && after + "" == after;
    } else {
      assert (s + after)[0] == s[0];
    }
  }

  lemma {:induction false} TrimStartAfterPadding(padding: string, s: string)
    requires IsPadding(padding)
    ensures TrimStart(padding + s) == TrimStart(s)
  {
    if padding == "" {
      assert padding + s == s;
    } else {
      PaddingIsSpace(padding, 0);
      PaddingBehind(padding);
      TrimStartAfterPadding(padding[1..], s);
      assert (padding + s)[1..] == padding[1..] + s;
    }
  }

  lemma PaddingBehind(s: string)
    requires IsPadding(s) && s != ""
    ensures IsPadding(s[1..])
  {
  }

  lemma {:induction false} TrimEndBeforePadding(s: string, padding: string)
    requires IsPadding(padding) && IsTight(s)
    ensures TrimEnd(s + padding) == s
    decreases |padding|
  {
    if padding == "" {
      assert s + padding == s;
    } else {
      PaddingIsSpace(padding, |padding| - 1);
      TrimEndBeforePadding(s, padding[..|padding| - 1]);
      assert (s + padding)[..|s + padding| - 1] == s + padding[..|padding| - 1];
    }
  }

  lemma BlankIsPadding(s: string)
    requires IsBlank(s)
    ensures IsPadding(s)
  {
  }

  lemma TrimIsTight(s: string)
    ensures IsTight(Trim(s))
  {
  }

  lemma PaddingAround(s: string) returns (before: string, after: string)
    ensures IsPadding(before) && IsPadding(after) && s == before + Trim(s) + after
  {
    var t := TrimStart(s);
    var trimmed := TrimEnd(t);
    TrimStartIsSuffix(s);
    before, after := s[..|s| - |t|], t[|trimmed|..];
    BlankIsPadding(before);
    BlankIsPadding(after);
    ThreeParts(s, before, t, trimmed, after);
  }

  lemma ThreeParts(s: string, before: string, rest: string, middle: string, after: string)
    requires before <= s && s[|before|..] == rest && middle <= rest && rest[|middle|..] == after
    ensures s == before + middle + after
  {
    assert rest == middle + after;
    assert s == before + rest;
  }

  ghost predicate IsPadded(text: string, s: string) {
    exists before, after :: IsPadding(before) && IsPadding(after) && text == before + s + after
  }

  /** Trimming removes blanks at both ends, all of them, and nothing else. */
  lemma TrimExactly(text: string, s: string)
    requires IsTight(s)
    ensures IsPadded(text, s) <==> Trim(text) == s
  {
    if before, after :| IsPadding(before) && IsPadding(after) && text == before + s + after {
      TrimmedPadding(before, s, after);
    }
    var before, after := PaddingAround(text);
    TrimIsTight(text);
    if Trim(text) == s {
      assert text == before + s + after;
    }
  }

  /** Trimming a text that is not blank at its start keeps its last character. */
  lemma {:induction false} LastIsKept(s: string, i: nat)
    requires i < |s| && !IsSpace(s[i])
    ensures TrimStart(s) != [] && TrimStart(s)[|TrimStart(s)| - 1] == s[|s| - 1]
  {
    if IsSpace(s[0]) {
      LastIsKept(s[1..], i - 1);
    }
  }

  lemma NoNewCharacters(s: string, c: char)
    requires c !in s
    ensures c !in TrimStart(s) && c !in Trim(s)
  {
    TrimStartIsSuffix(s);
    assert c !in TrimStart(s);
  }

  /** `indexOf` of a single character: its first position, or the length when it does not occur. */
  function IndexOf(s: string, c: char): (i: nat)
    ensures i <= |s|
    ensures i < |s| ==> s[i] == c
    ensures c !in s[..i]
    ensures i == |s| <==> c !in s
  {
    if s == [] || s[0] == c then 0
    else
      var j := IndexOf(s[1..], c);
      assert s[..j + 1] == [s[0]] + s[1..][..j];
      j + 1
  }

  predicate StartsWith(s: string, p: string) {
    p <= s
  }

  predicate EndsWith(s: string, p: string) {
    |p| <= |s| && s[|s| - |p|..] == p
  }

  /** `s.split(c)`: the fields between the occurrences of `c`; always at least one field. */
  function Split(s: string, c: char): (fields: seq<string>)
    ensures |fields| >= 1
    ensures forall k :: 0 <= k < |fields| ==> c !in fields[k]
    ensures c !in s ==> fields == [s]
    decreases |s|
  {
    var i := IndexOf(s, c);
    if i == |s| then [s] else [s[..i]] + Split(s[i + 1..], c)
  }

  function Join(fields: seq<string>, c: char): string {
    if |fields| == 0 then ""
    else if |fields| == 1 then fields[0]
    else fields[0] + [c] + Join(fields[1..], c)
  }

  /** A string that contains `c` is its first field, a `c`, and the rest. */
  lemma Cut(s: string, c: char) returns (head: string, rest: string)
    requires c in s
    ensures c !in head && s == head + [c] + rest
  {
    var i := IndexOf(s, c);
    head, rest := s[..i], s[i + 1..];
  }

  lemma IndexAfter(a: string, c: char, b: string)
    requires c !in a
    ensures IndexOf(a + [c] + b, c) == |a|
  {
    var s := a + [c] + b;
    assert s[|a|] == c && c in s;
    assert forall k :: 0 <= k < |a| ==> s[k] == a[k];
    assert forall k :: 0 <= k < IndexOf(s, c) ==> s[..IndexOf(s, c)][k] == s[k];
  }

  lemma SplitFirst(a: string, c: char, b: string)
    requires c !in a
    ensures Split(a + [c] + b, c) == [a] + Split(b, c)
  {
    var s := a + [c] + b;
    IndexAfter(a, c, b);
    assert s[|a|] == c && s[..|a|] == a && s[|a| + 1..] == b;
  }

  lemma JoinCons(head: string, tail: seq<string>, c: char)
    requires tail != []
    ensures Join([head] + tail, c) == head + [c] + Join(tail, c)
  {
    assert ([head] + tail)[1..] == tail;
  }

  lemma {:induction false} JoinOfSplit(s: string, c: char)
    ensures Join(Split(s, c), c) == s
    decreases |s|
  {
    if c in s {
      var head, rest := Cut(s, c);
      JoinOfSplit(rest, c);
      SplitFirst(head, c, rest);
      JoinCons(head, Split(rest, c), c);
    }
  }

  lemma {:induction false} SplitOfJoin(fields: seq<string>, c: char)
    requires |fields| >= 1
    requires forall k :: 0 <= k < |fields| ==> c !in fields[k]
    ensures Split(Join(fields, c), c) == fields
  {
    if |fields| > 1 {
      SplitOfJoin(fields[1..], c);
      SplitFirst(fields[0], c, Join(fields[1..], c));
      assert fields == [fields[0]] + fields[1..];
    }
  }

  /** The first position at or after `from` whose element satisfies `p`, or the length. */
  function FirstIndex<T>(s: seq<T>, from: nat, p: T -> bool): (i: nat)
    requires from <= |s|
    ensures from <= i <= |s|
    ensures forall k :: from <= k < i ==> !p(s[k])
    ensures i < |s| ==> p(s[i])
    decreases |s| - from
  {
    if from == |s| || p(s[from]) then from else FirstIndex(s, from + 1, p)
  }

  lemma FirstIndexAt<T>(s: seq<T>, from: nat, p: T -> bool, i: nat)
    requires from <= i <= |s| && (i < |s| ==> p(s[i]))
    requires forall k :: from <= k < i ==> !p(s[k])
    ensures FirstIndex(s, from, p) == i
  {
  }

  lemma SameElements<T(!new)>(a: set<T>, b: set<T>)
    requires forall x :: x in a <==> x in b
    ensures a == b
  {
  }

  lemma ElementBeyond<T>(small: set<T>, big: set<T>) returns (x: T)
    requires small <= big && small != big
    ensures x in big && x !in small
  {
    x :| x in big && x !in small;
  }

  lemma OneMoreElement<T(!new)>(before: set<T>, after: set<T>, x: T, added: bool)
    requires x !in before && forall y :: y in after <==> y in before || (added && y == x)
    ensures |after| == |before| + if added then 1 else 0
  {
    SameElements(after, if added then before + {x} else before);
  }

  /** The positions before `n` at which `p` holds. */
  ghost function Where<T>(s: seq<T>, n: nat, p: T -> bool): set<int>
    requires n <= |s|
  {
    set k | 0 <= k < n && p(s[k])
  }

  lemma WhereOneMore<T>(s: seq<T>, n: nat, p: T -> bool)
    requires 0 < n <= |s|
    ensures |Where(s, n, p)| == |Where(s, n - 1, p)| + if p(s[n - 1]) then 1 else 0
  {
    OneMoreElement(Where(s, n - 1, p), Where(s, n, p), n - 1, p(s[n - 1]));
  }

  lemma Regroup<T>(a: seq<T>, b: seq<T>, c: seq<T>)
    ensures a + b + c == a + (b + c)
  {
  }

  lemma {:induction false} SplitConcat(a: string, c: char, b: string)
    ensures Split(a + [c] + b, c) == Split(a, c) + Split(b, c)
    decreases |a|
  {
    if c !in a {
      SplitFirst(a, c, b);
    } else {
      var head, rest := Cut(a, c);
      SplitConcat(rest, c, b);
      SplitConcatStep(head, rest, c, b);
    }
  }

  lemma SplitConcatStep(head: string, rest: string, c: char, b: string)
    requires c !in head
    requires Split(rest + [c] + b, c) == Split(rest, c) + Split(b, c)
    ensures Split(head + [c] + rest + [c] + b, c) == Split(head + [c] + rest, c) + Split(b, c)
  {
    SplitFirst(head, c, rest);
    SplitFirst(head, c, rest + [c] + b);
    Regroup(head + [c], rest, [c]);
    Regroup(head + [c], rest + [c], b);
    Regroup([head], Split(rest, c), Split(b, c));
  }
}
