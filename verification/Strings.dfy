/** The functions of Go's package strings that the repository relies on. */
module Strings {
  import opened Wrappers

  predicate HasPrefix(s: string, prefix: string) {
    prefix <= s
  }

  function TrimPrefix(s: string, prefix: string): string {
    if prefix <= s then s[|prefix|..] else s
  }

  predicate Contains(s: string, sub: string) {
    sub <= s || (s != [] && Contains(s[1..], sub))
  }

  lemma {:induction false} ContainsAtEnd(front: string, sub: string)
    ensures Contains(front + sub, sub)
  {
    if front == [] {
      assert front + sub == sub;
    } else {
      assert (front + sub)[1..] == front[1..] + sub;
      ContainsAtEnd(front[1..], sub);
    }
  }

  /** strings.Cut at a single character: what is before it and what is behind it. */
  function Cut(s: string, c: char): Option<(string, string)> {
    if s == [] then None
    else if s[0] == c then Some(([], s[1..]))
    else
      var rest := Cut(s[1..], c);
      if rest.None? then None else Some(([s[0]] + rest.value.0, rest.value.1))
  }

  lemma {:induction false} CutJoin(field: string, c: char, rest: string)
    requires c !in field
    ensures Cut(field + [c] + rest, c) == Some((field, rest))
  {
    var s := field + [c] + rest;
    if field == [] {
      assert s[1..] == rest;
    } else {
      assert s[0] == field[0] && s[1..] == field[1..] + [c] + rest;
      assert field == [field[0]] + field[1..];
      CutJoin(field[1..], c, rest);
    }
  }

  lemma {:induction false} CutUndone(s: string, c: char)
    ensures Cut(s, c).None? <==> c !in s
    ensures Cut(s, c).Some? ==> s == Cut(s, c).value.0 + [c] + Cut(s, c).value.1 && c !in Cut(s, c).value.0
  {
    if s != [] && s[0] != c {
      CutUndone(s[1..], c);
      assert s == [s[0]] + s[1..];
    }
  }

  /** strings.Split at a single character. */
  function Split(s: string, c: char): (parts: seq<string>)
    ensures |parts| > 0
    decreases |s|
  {
    CutUndone(s, c);
    if Cut(s, c).None? then [s] else [Cut(s, c).value.0] + Split(Cut(s, c).value.1, c)
  }

  function Join(parts: seq<string>, c: char): string
    requires parts != []
  {
    if |parts| == 1 then parts[0] else parts[0] + [c] + Join(parts[1..], c)
  }

  /** Splitting is undone by joining, and no part holds the separator. */
  lemma {:induction false} SplitParts(s: string, c: char)
    ensures Join(Split(s, c), c) == s
    ensures forall i :: 0 <= i < |Split(s, c)| ==> c !in Split(s, c)[i]
    decreases |s|
  {
    CutUndone(s, c);
    if Cut(s, c).Some? {
      var first, rest := Cut(s, c).value.0, Cut(s, c).value.1;
      SplitParts(rest, c);
      assert Split(s, c)[1..] == Split(rest, c);
    }
  }

  predicate Occurs(s: string, sub: string, i: int) {
    0 <= i <= |s| - |sub| && s[i..i + |sub|] == sub
  }

  lemma OccursNext(s: string, sub: string, i: int)
    requires s != []
    ensures Occurs(s[1..], sub, i) <==> i >= 0 && Occurs(s, sub, i + 1)
  {
    if 0 <= i <= |s| - 1 - |sub| {
      assert s[1..][i..i + |sub|] == s[i + 1..i + 1 + |sub|];
    }
  }

  lemma OccursInFront(s: string, sub: string)
    ensures Occurs(s, sub, 0) <==> sub <= s
  {
  }

  lemma {:induction false} ContainsExactly(s: string, sub: string)
    ensures Contains(s, sub) <==> exists i :: Occurs(s, sub, i)
  {
    OccursInFront(s, sub);
    if s != [] {
      ContainsExactly(s[1..], sub);
      if i :| Occurs(s[1..], sub, i) {
        OccursNext(s, sub, i);
      }
      if i :| Occurs(s, sub, i) {
        OccursNext(s, sub, i - 1);
      }
    }
  }
}
