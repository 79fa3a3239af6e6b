/** The JavaScript string operations the modelled code relies on
    (`includes`, `startsWith`, `indexOf`, `split`, `replace` of a single
    character, `toLowerCase`, integer `toString`), written over `seq<char>`,
    with the facts about them that the rest of the model uses. */
module Strings {
  import opened Wrappers

  /** `s.includes(sub)`: `sub` occurs in `s` at some position. */
  predicate Contains(s: string, sub: string)
    decreases |s|
  {
    sub <= s || (|s| > 0 && Contains(s[1..], sub))
  }

  /** An occurrence at position `i` is enough for `Contains`. */
  lemma {:induction false} ContainsAt(s: string, sub: string, i: nat)
    requires i + |sub| <= |s| && s[i..i + |sub|] == sub
    ensures Contains(s, sub)
    decreases i
  {
    if i == 0 {
      assert sub <= s;
    } else {
      assert s[1..][i - 1..i - 1 + |sub|] == s[i..i + |sub|];
      ContainsAt(s[1..], sub, i - 1);
    }
  }

  /** `Contains` holds exactly when there is an occurrence. */
  lemma {:induction false} ContainsWitness(s: string, sub: string) returns (i: nat)
    requires Contains(s, sub)
    ensures i + |sub| <= |s| && s[i..i + |sub|] == sub
    decreases |s|
  {
    if sub <= s {
      i := 0;
    } else {
      var j := ContainsWitness(s[1..], sub);
      assert s[1..][j..j + |sub|] == s[j + 1..j + 1 + |sub|];
      i := j + 1;
    }
  }

  /** Every string contains the empty string, and itself inside any context. */
  lemma ContainsEmpty(s: string)
    ensures Contains(s, "")
  {
    ContainsAt(s, "", 0);
  }

  lemma ContainsInfix(p: string, sub: string, q: string)
    ensures Contains(p + sub + q, sub)
  {
    assert (p + sub + q)[|p|..|p| + |sub|] == sub;
    ContainsAt(p + sub + q, sub, |p|);
  }

  /** An occurrence in `s` is still an occurrence once `s` is extended on both sides. */
  lemma ContainsExtend(p: string, s: string, q: string, sub: string)
    requires Contains(s, sub)
    ensures Contains(p + s + q, sub)
  {
    var i := ContainsWitness(s, sub);
    assert (p + s + q)[|p| + i..|p| + i + |sub|] == s[i..i + |sub|];
    ContainsAt(p + s + q, sub, |p| + i);
  }

  /** `s.startsWith(p)`. */
  predicate StartsWith(s: string, p: string) {
    p <= s
  }

  /** `s.indexOf(c)` for a single character, `None` standing for -1. */
  function IndexOf(s: string, c: char): (r: Option<nat>)
    ensures r.None? <==> c !in s
    ensures r.Some? ==> r.value < |s| && s[r.value] == c && c !in s[..r.value]
  {
    if |s| == 0 then None
    else if s[0] == c then Some(0)
    else match IndexOf(s[1..], c)
      case None => None
      case Some(i) =>
        assert s[..i + 1] == [s[0]] + s[1..][..i];
        Some(i + 1)
  }

  /** `s.split(d)` for a one-character separator. */
  function Split(s: string, d: char): (parts: seq<string>)
    ensures |parts| >= 1
    ensures forall k :: 0 <= k < |parts| ==> d !in parts[k]
    decreases |s|
  {
    match IndexOf(s, d)
    case None => [s]
    case Some(i) => [s[..i]] + Split(s[i + 1..], d)
  }

  /** `parts.join(d)`, the inverse of `Split`. */
  function Join(parts: seq<string>, d: char): string
  {
    if |parts| == 0 then ""
    else if |parts| == 1 then parts[0]
    else parts[0] + [d] + Join(parts[1..], d)
  }

  /** Joining the pieces of a split gives back the string. */
  lemma {:induction false} JoinSplit(s: string, d: char)
    ensures Join(Split(s, d), d) == s
    decreases |s|
  {
    match IndexOf(s, d)
    case None =>
    case Some(i) =>
      var rest := Split(s[i + 1..], d);
      var parts := [s[..i]] + rest;
      assert Split(s, d) == parts;
      assert parts[1..] == rest;
      JoinSplit(s[i + 1..], d);
      assert Join(parts, d) == s[..i] + [d] + Join(rest, d);
      assert s == s[..i] + [d] + s[i + 1..];
  }

  /** Splitting a join of separator-free pieces gives back the pieces. */
  lemma {:induction false} SplitJoin(parts: seq<string>, d: char)
    requires |parts| >= 1
    requires forall k :: 0 <= k < |parts| ==> d !in parts[k]
    ensures Split(Join(parts, d), d) == parts
    decreases |parts|
  {
    if |parts| > 1 {
      var s := Join(parts, d);
      assert s == parts[0] + ([d] + Join(parts[1..], d));
      IndexOfAfterFree(parts[0], d, Join(parts[1..], d));
      assert s[|parts[0]| + 1..] == Join(parts[1..], d);
      assert s[..|parts[0]|] == parts[0];
      SplitJoin(parts[1..], d);
      assert parts == [parts[0]] + parts[1..];
    } else {
      assert IndexOf(parts[0], d).None?;
    }
  }

  /** The first `d` of `a + [d] + b` is the one after `a` when `a` has none. */
  lemma IndexOfAfterFree(a: string, d: char, b: string)
    requires d !in a
    ensures IndexOf(a + [d] + b, d) == Some(|a|)
  {
    var s := a + [d] + b;
    assert s[..|a|] == a;
    assert s[|a|] == d;
  }

  /** So the split of `a + [d] + b` starts with `a` when `a` has no `d`. */
  lemma SplitAfterFree(a: string, d: char, b: string)
    requires d !in a
    ensures Split(a + [d] + b, d) == [a] + Split(b, d)
  {
    var s := a + [d] + b;
    IndexOfAfterFree(a, d, b);
    assert s[..|a|] == a && s[|a| + 1..] == b;
  }

  /** `s.replace(c, r)` with a one-character search string: only the first
      occurrence of `c` is replaced. */
  function ReplaceFirst(s: string, c: char, r: char): (t: string)
    ensures |t| == |s|
  {
    match IndexOf(s, c)
    case None => s
    case Some(i) => s[..i] + [r] + s[i + 1..]
  }

  /** Replacing the first `c` by a character `r` that did not occur, and then
      the first `r` back by `c`, restores the string; so only one position
      changed. */
  lemma ReplaceFirstUndo(s: string, c: char, r: char)
    requires r !in s
    ensures ReplaceFirst(ReplaceFirst(s, c, r), r, c) == s
  {
    match IndexOf(s, c)
    case None =>
    case Some(i) =>
      var t := s[..i] + [r] + s[i + 1..];
      assert ReplaceFirst(s, c, r) == t;
      IndexOfAfterFree(s[..i], r, s[i + 1..]);
      assert t[..i] == s[..i] && t[i + 1..] == s[i + 1..];
      assert s == s[..i] + [c] + s[i + 1..];
  }

  /** The replaced string keeps everything before the first `c`, puts `r` there
      and keeps the rest. */
  lemma ReplaceFirstAt(s: string, c: char, r: char, k: nat)
    requires k < |s|
    ensures IndexOf(s, c) == Some(k) ==> ReplaceFirst(s, c, r)[k] == r
    ensures (IndexOf(s, c).None? || IndexOf(s, c) != Some(k)) ==> ReplaceFirst(s, c, r)[k] == s[k]
  {
  }

  /** `String.prototype.toLowerCase`, for the ASCII letters. */
  function LowerChar(c: char): char {
    if 'A' <= c <= 'Z' then (c as int + 32) as char else c
  }

  function ToLower(s: string): (t: string)
    ensures |t| == |s|
  {
    seq(|s|, i requires 0 <= i < |s| => LowerChar(s[i]))
  }

  /** Lower-casing leaves no ASCII capital and is idempotent. */
  lemma ToLowerIdempotent(s: string)
    ensures forall i :: 0 <= i < |s| ==> !('A' <= ToLower(s)[i] <= 'Z')
    ensures ToLower(ToLower(s)) == ToLower(s)
  {
  }

  /** Lower-casing is applied position by position, so it distributes over `+`. */
  lemma ToLowerConcat(a: string, b: string)
    ensures ToLower(a + b) == ToLower(a) + ToLower(b)
  {
  }

  predicate IsDigit(c: char) {
    '0' <= c <= '9'
  }

  predicate AllDigits(s: string) {
    forall i :: 0 <= i < |s| ==> IsDigit(s[i])
  }

  function DigitChar(d: nat): (c: char)
    requires d < 10
    ensures IsDigit(c) && c as int - '0' as int == d
  {
    ('0' as int + d) as char
  }

  /** `n.toString()` for a non-negative integer: decimal, no leading zero. */
  function NatToString(n: nat): (s: string)
    ensures |s| >= 1 && AllDigits(s)
    ensures |s| > 1 ==> s[0] != '0'
  {
    if n < 10 then [DigitChar(n)] else NatToString(n / 10) + [DigitChar(n % 10)]
  }

  /** Reading a string of decimal digits. */
  function ParseDigits(s: string): nat
    requires AllDigits(s)
  {
    if |s| == 0 then 0
    else 10 * ParseDigits(s[..|s| - 1]) + (s[|s| - 1] as int - '0' as int)
  }

  /** Decimal printing and reading are inverse. */
  lemma {:induction false} ParseNatToString(n: nat)
    ensures ParseDigits(NatToString(n)) == n
  {
    if n >= 10 {
      var s := NatToString(n);
      assert s[..|s| - 1] == NatToString(n / 10);
      ParseNatToString(n / 10);
    }
  }

  /** Hence `toString` on non-negative integers is injective. */
  lemma NatToStringInjective(m: nat, n: nat)
    requires NatToString(m) == NatToString(n)
    ensures m == n
  {
    ParseNatToString(m);
    ParseNatToString(n);
  }
}
