/**
 * String operations with the meaning of the Rust standard-library calls the
 * daemon makes on `str` and `String`: `contains`, `replace(pat, "")`,
 * `split('/').last()`, `trim`, `split_whitespace`, `BufRead::lines`,
 * `truncate`, integer formatting and `parse`, and UTF-8 byte lengths.
 */
module Text {
  import opened Wrappers

  /** `char::is_whitespace`: the characters with the Unicode White_Space property. */
  predicate IsWhitespace(c: char) {
    ('\t' <= c <= '\r') || c == ' ' || c == '\U{85}' || c == '\U{A0}' || c == '\U{1680}'
    || ('\U{2000}' <= c <= '\U{200A}') || c == '\U{2028}' || c == '\U{2029}'
    || c == '\U{202F}' || c == '\U{205F}' || c == '\U{3000}'
  }

  predicate NoWhitespace(t: string) {
    forall i :: 0 <= i < |t| ==> !IsWhitespace(t[i])
  }

  predicate IsDigit(c: char) {
    '0' <= c <= '9'
  }

  predicate AllDigits(s: string) {
    forall i :: 0 <= i < |s| ==> IsDigit(s[i])
  }

  predicate StartsWith(s: string, prefix: string) {
    |prefix| <= |s| && s[..|prefix|] == prefix
  }

  predicate EndsWith(s: string, suffix: string) {
    |suffix| <= |s| && s[|s| - |suffix|..] == suffix
  }

  /** The path names a directory: its last character is `/`. */
  predicate EndsInSlash(s: string) {
    s != [] && s[|s| - 1] == '/'
  }

  /** The path is absolute: its first character is `/`. */
  predicate IsAbsolute(s: string) {
    s != [] && s[0] == '/'
  }

  /** `pat` occurs in `s` starting at index `i`. */
  predicate OccursAt(s: string, pat: string, i: int) {
    0 <= i && i + |pat| <= |s| && s[i..i + |pat|] == pat
  }

  /** `str::contains` with a string pattern. */
  predicate Contains(s: string, pat: string) {
    exists i :: 0 <= i <= |s| - |pat| && OccursAt(s, pat, i)
  }

  lemma ContainsTail(s: string, pat: string)
    requires s != [] && Contains(s[1..], pat)
    ensures Contains(s, pat)
  {
    var t := s[1..];
    var i :| 0 <= i <= |t| - |pat| && OccursAt(t, pat, i);
    assert t[i..i + |pat|] == s[i + 1..i + 1 + |pat|];
    assert OccursAt(s, pat, i + 1);
  }

  /**
   * `s.replace(pat, "")`: every non-overlapping occurrence of `pat`, found
   * left to right, is removed. An empty pattern leaves `s` unchanged.
   */
  function RemoveAll(s: string, pat: string): (r: string)
    ensures |r| <= |s|
    ensures !Contains(s, pat) ==> r == s
    decreases |s|
  {
    if pat == [] || |s| < |pat| then s
    else if s[..|pat|] == pat then
      assert OccursAt(s, pat, 0);
      RemoveAll(s[|pat|..], pat)
    else
      var rest := RemoveAll(s[1..], pat);
      assert Contains(s[1..], pat) ==> Contains(s, pat) by {
        if Contains(s[1..], pat) {
          ContainsTail(s, pat);
        }
      }
      assert !Contains(s, pat) ==> [s[0]] + s[1..] == s;
      [s[0]] + rest
  }

  /**
   * `s.split('/').last()`, which always exists: the text after the last
   * `/`, or all of `s` when it has none.
   */
  function LastSegment(s: string): (r: string)
    ensures '/' !in r
    ensures |r| <= |s| && r == s[|s| - |r|..]
    ensures |r| < |s| ==> s[|s| - |r| - 1] == '/'
  {
    if s == [] || s[|s| - 1] == '/' then []
    else
      var r := LastSegment(s[..|s| - 1]) + [s[|s| - 1]];
      assert s[..|s| - 1][|s| - 1 - (|r| - 1)..] + [s[|s| - 1]] == s[|s| - |r|..];
      r
  }

  /** Everything before the last segment, keeping the final `/`. */
  function ParentDir(s: string): (r: string)
    ensures r + LastSegment(s) == s
    ensures r == [] || r[|r| - 1] == '/'
  {
    s[..|s| - |LastSegment(s)|]
  }

  /** The segment after a `/` is recovered by `LastSegment`. */
  lemma {:induction false} LastSegmentAfterSlash(p: string, n: string)
    requires '/' !in n
    ensures LastSegment(p + "/" + n) == n
  {
    var s := p + "/" + n;
    if n != [] {
      var m := n[..|n| - 1];
      assert s[..|s| - 1] == p + "/" + m;
      assert n[|n| - 1] in n;
      LastSegmentAfterSlash(p, m);
      assert m + [n[|n| - 1]] == n;
    }
  }

  /** A string without `/` is its own last segment. */
  lemma {:induction false} LastSegmentNoSlash(s: string)
    requires '/' !in s
    ensures LastSegment(s) == s
  {
    if s != [] {
      var m := s[..|s| - 1];
      var c := s[|s| - 1];
      assert c in s;
      assert '/' !in m by {
        assert forall k :: 0 <= k < |m| ==> m[k] == s[k];
      }
      LastSegmentNoSlash(m);
      assert LastSegment(s) == LastSegment(m) + [c];
      assert m + [c] == s;
    }
  }

  /** A one-character pattern occurs exactly when the character does. */
  lemma ContainsChar(s: string, c: char)
    ensures Contains(s, [c]) <==> c in s
  {
    if c in s {
      var i :| 0 <= i < |s| && s[i] == c;
      assert s[i..i + 1] == [c];
      assert OccursAt(s, [c], i);
    }
    if Contains(s, [c]) {
      var i :| 0 <= i <= |s| - 1 && OccursAt(s, [c], i);
      assert s[i] == s[i..i + 1][0];
    }
  }

  /** The characters of `s` other than `c`, in order. */
  function Without(s: string, c: char): string {
    if s == [] then [] else (if s[0] == c then [] else [s[0]]) + Without(s[1..], c)
  }

  lemma {:induction false} WithoutAppend(a: string, b: string, c: char)
    ensures Without(a + b, c) == Without(a, c) + Without(b, c)
  {
    if a == [] {
      assert a + b == b;
    } else {
      assert (a + b)[1..] == a[1..] + b;
      WithoutAppend(a[1..], b, c);
    }
  }

  lemma {:induction false} WithoutAbsent(s: string, c: char)
    requires c !in s
    ensures Without(s, c) == s
  {
    if s != [] {
      assert s[1..] == s[1..] && forall x :: x in s[1..] ==> x in s;
      WithoutAbsent(s[1..], c);
      assert [s[0]] + s[1..] == s;
    }
  }

  /** Removing a one-character pattern drops every copy of that character. */
  lemma {:induction false} RemoveAllChar(s: string, c: char)
    ensures RemoveAll(s, [c]) == Without(s, c)
  {
    if s != [] {
      assert s[..1] == [s[0]];
      RemoveAllChar(s[1..], c);
    }
  }

  /** An occurrence of `pat` right after `a`. */
  lemma OccursAfter(a: string, pat: string, b: string)
    ensures OccursAt(a + pat + b, pat, |a|) && Contains(a + pat + b, pat)
  {
    assert (a + pat + b)[|a|..|a| + |pat|] == pat;
    assert OccursAt(a + pat + b, pat, |a|);
  }

  /** A prefix whose characters all differ from the pattern's first is kept as it is. */
  lemma {:induction false} RemoveAllSkip(a: string, pat: string, t: string)
    requires pat != [] && forall i :: 0 <= i < |a| ==> a[i] != pat[0]
    ensures RemoveAll(a + t, pat) == a + RemoveAll(t, pat)
  {
    if a != [] {
      var s := a + t;
      assert s[0] == a[0];
      assert s[1..] == a[1..] + t;
      RemoveAllSkip(a[1..], pat, t);
      if |s| < |pat| {
        assert RemoveAll(s, pat) == s;
        assert RemoveAll(t, pat) == t;
      } else {
        assert s[..|pat|][0] == a[0];
        RemoveAllNoMatch(s, pat);
        ConsConcat(a, RemoveAll(t, pat));
      }
    } else {
      assert a + t == t;
    }
  }

  lemma ConsConcat(a: string, x: string)
    requires a != []
    ensures [a[0]] + (a[1..] + x) == a + x
  {
    assert [a[0]] + a[1..] == a;
  }

  /** A text not starting with the pattern keeps its first character. */
  lemma RemoveAllNoMatch(s: string, pat: string)
    requires pat != [] && |pat| <= |s| && s[..|pat|] != pat
    ensures RemoveAll(s, pat) == [s[0]] + RemoveAll(s[1..], pat)
  {
  }

  /** A leading occurrence of the pattern is removed. */
  lemma RemoveAllLeading(pat: string, t: string)
    requires pat != []
    ensures RemoveAll(pat + t, pat) == RemoveAll(t, pat)
  {
    assert (pat + t)[..|pat|] == pat;
    assert (pat + t)[|pat|..] == t;
  }

  /** Leading whitespace before a non-blank text is trimmed away. */
  lemma {:induction false} TrimStartSkip(ws: string, t: string)
    requires forall i :: 0 <= i < |ws| ==> IsWhitespace(ws[i])
    requires t == [] || !IsWhitespace(t[0])
    ensures TrimStart(ws + t) == t
  {
    if ws != [] {
      assert (ws + t)[0] == ws[0];
      assert (ws + t)[1..] == ws[1..] + t;
      TrimStartSkip(ws[1..], t);
    } else {
      assert ws + t == t;
    }
  }

  /**
   * Once `p` ends in `/` and has no occurrence of a `/`-free pattern,
   * removing every occurrence of that pattern from `p + seg` removes exactly
   * the trailing copy.
   */
  lemma {:induction false} RemoveAllTrailingSegment(p: string, seg: string)
    requires |p| > 0 && p[|p| - 1] == '/'
    requires seg != [] && '/' !in seg
    requires !Contains(p, seg)
    ensures RemoveAll(p + seg, seg) == p
  {
    var q := p + seg;
    assert q[..|seg|] != seg by {
      if |seg| <= |p| {
        assert p[0..0 + |seg|] == q[..|seg|];
        if q[..|seg|] == seg {
          assert OccursAt(p, seg, 0);
        }
      } else {
        assert q[..|seg|][|p| - 1] == '/';
      }
    }
    assert q[1..] == p[1..] + seg;
    if |p| == 1 {
      assert q[1..] == seg;
      assert seg[..|seg|] == seg;
      assert RemoveAll(seg, seg) == RemoveAll(seg[|seg|..], seg);
      assert seg[|seg|..] == [];
      assert RemoveAll(q, seg) == [q[0]] + [];
    } else {
      assert !Contains(p[1..], seg) by {
        if Contains(p[1..], seg) {
          ContainsTail(p, seg);
        }
      }
      RemoveAllTrailingSegment(p[1..], seg);
      assert RemoveAll(q, seg) == [q[0]] + RemoveAll(p[1..] + seg, seg);
      assert [p[0]] + p[1..] == p;
    }
  }

  /** `str::trim_start`. */
  function TrimStart(s: string): (r: string)
    ensures |r| <= |s| && r == s[|s| - |r|..]
    ensures r == [] || !IsWhitespace(r[0])
    ensures forall i :: 0 <= i < |s| - |r| ==> IsWhitespace(s[i])
  {
    if s != [] && IsWhitespace(s[0]) then
      var r := TrimStart(s[1..]);
      assert forall i :: 1 <= i < |s| - |r| ==> s[i] == s[1..][i - 1];
      r
    else s
  }

  /** `str::trim_end`. */
  function TrimEnd(s: string): (r: string)
    ensures |r| <= |s| && r == s[..|r|]
    ensures r == [] || !IsWhitespace(r[|r| - 1])
    ensures forall i :: |r| <= i < |s| ==> IsWhitespace(s[i])
  {
    if s != [] && IsWhitespace(s[|s| - 1]) then
      var r := TrimEnd(s[..|s| - 1]);
      assert forall i :: |r| <= i < |s| - 1 ==> s[i] == s[..|s| - 1][i];
      r
    else s
  }

  /** `str::trim`: leading and trailing whitespace removed. */
  function Trim(s: string): (r: string)
    ensures |r| <= |s|
    ensures r == [] || (!IsWhitespace(r[0]) && !IsWhitespace(r[|r| - 1]))
  {
    TrimEnd(TrimStart(s))
  }

  /** The characters of `s` that are not whitespace, in order. */
  function RemoveWhitespace(s: string): string {
    if s == [] then []
    else if IsWhitespace(s[0]) then RemoveWhitespace(s[1..])
    else [s[0]] + RemoveWhitespace(s[1..])
  }

  function Concat(ts: seq<string>): string {
    if ts == [] then [] else ts[0] + Concat(ts[1..])
  }

  /** The tokens joined by single spaces. */
  function JoinBySpace(ts: seq<string>): string {
    if ts == [] then []
    else if |ts| == 1 then ts[0]
    else ts[0] + " " + JoinBySpace(ts[1..])
  }

  /** `str::split_whitespace`: the maximal runs of non-whitespace characters. */
  function SplitWhitespace(s: string): (tokens: seq<string>)
    ensures forall i :: 0 <= i < |tokens| ==> tokens[i] != [] && NoWhitespace(tokens[i])
  {
    Tokens(s, [])
  }

  /** Split the rest `s` of a string whose current, unfinished token is `acc`. */
  function Tokens(s: string, acc: string): (tokens: seq<string>)
    requires NoWhitespace(acc)
    ensures forall i :: 0 <= i < |tokens| ==> tokens[i] != [] && NoWhitespace(tokens[i])
    decreases |s|
  {
    if s == [] then
      (if acc == [] then [] else [acc])
    else if IsWhitespace(s[0]) then
      (if acc == [] then [] else [acc]) + Tokens(s[1..], [])
    else
      Tokens(s[1..], acc + [s[0]])
  }

  lemma {:induction false} TokensConcat(s: string, acc: string)
    requires NoWhitespace(acc)
    ensures Concat(Tokens(s, acc)) == acc + RemoveWhitespace(s)
    decreases |s|
  {
    if s == [] {
      if acc != [] {
        assert Concat([acc]) == acc + Concat([]);
      }
    } else if IsWhitespace(s[0]) {
      TokensConcat(s[1..], []);
      assert [] + Tokens(s[1..], []) == Tokens(s[1..], []);
      if acc != [] {
        ConcatAppend([acc], Tokens(s[1..], []));
        assert Concat([acc]) == acc + Concat([]);
      }
    } else {
      TokensConcat(s[1..], acc + [s[0]]);
      assert acc + [s[0]] + RemoveWhitespace(s[1..]) == acc + ([s[0]] + RemoveWhitespace(s[1..]));
    }
  }

  lemma {:induction false} ConcatAppend(a: seq<string>, b: seq<string>)
    ensures Concat(a + b) == Concat(a) + Concat(b)
  {
    if a == [] {
      assert a + b == b;
    } else {
      assert (a + b)[1..] == a[1..] + b;
      ConcatAppend(a[1..], b);
    }
  }

  /** Joining the tokens gives back every non-whitespace character, in order. */
  lemma SplitWhitespaceKeepsText(s: string)
    ensures Concat(SplitWhitespace(s)) == RemoveWhitespace(s)
  {
    TokensConcat(s, []);
  }

  lemma {:induction false} TokensAllWhitespace(s: string)
    ensures Tokens(s, []) == [] <==> forall i :: 0 <= i < |s| ==> IsWhitespace(s[i])
    decreases |s|
  {
    if s != [] {
      TokensAllWhitespace(s[1..]);
      if !IsWhitespace(s[0]) {
        TokensNonEmpty(s[1..], [s[0]]);
        assert [] + [s[0]] == [s[0]];
        assert Tokens(s, []) == Tokens(s[1..], [s[0]]);
      } else {
        assert Tokens(s, []) == [] + Tokens(s[1..], []);
        if forall i :: 0 <= i < |s[1..]| ==> IsWhitespace(s[1..][i]) {
          forall i | 0 <= i < |s| ensures IsWhitespace(s[i]) {
            if i > 0 {
              assert s[i] == s[1..][i - 1];
            }
          }
        }
      }
    }
  }

  lemma {:induction false} TokensNonEmpty(s: string, acc: string)
    requires NoWhitespace(acc) && acc != []
    ensures Tokens(s, acc) != []
    decreases |s|
  {
    if s != [] && !IsWhitespace(s[0]) {
      TokensNonEmpty(s[1..], acc + [s[0]]);
    }
  }

  /** A command has no program exactly when it is empty or whitespace only. */
  lemma SplitWhitespaceEmpty(s: string)
    ensures SplitWhitespace(s) == [] <==> forall i :: 0 <= i < |s| ==> IsWhitespace(s[i])
  {
    TokensAllWhitespace(s);
  }

  lemma {:induction false} TokensOfWord(t: string, rest: string, acc: string)
    requires NoWhitespace(acc) && NoWhitespace(t)
    ensures Tokens(t + rest, acc) == Tokens(rest, acc + t)
    decreases |t|
  {
    if t != [] {
      assert (t + rest)[1..] == t[1..] + rest;
      assert (t + rest)[0] == t[0];
      assert !IsWhitespace(t[0]);
      assert NoWhitespace(acc + [t[0]]);
      assert NoWhitespace(t[1..]);
      TokensOfWord(t[1..], rest, acc + [t[0]]);
      assert acc + [t[0]] + t[1..] == acc + t;
    } else {
      assert t + rest == rest && acc + t == acc;
    }
  }

  /** Splitting tokens joined by single spaces gives the tokens back. */
  lemma {:induction false} SplitJoinBySpace(ts: seq<string>)
    requires forall i :: 0 <= i < |ts| ==> ts[i] != [] && NoWhitespace(ts[i])
    ensures SplitWhitespace(JoinBySpace(ts)) == ts
  {
    if |ts| == 1 {
      TokensOfWord(ts[0], [], []);
      assert ts[0] + [] == ts[0];
    } else if |ts| > 1 {
      var rest := JoinBySpace(ts[1..]);
      assert JoinBySpace(ts) == ts[0] + (" " + rest);
      TokensOfWord(ts[0], " " + rest, []);
      assert [] + ts[0] == ts[0];
      assert Tokens(" " + rest, ts[0]) == [ts[0]] + Tokens(rest, []) by {
        assert (" " + rest)[0] == ' ';
        assert (" " + rest)[1..] == rest;
      }
      SplitJoinBySpace(ts[1..]);
      assert ts == [ts[0]] + ts[1..];
    }
  }

  function IndexOf(s: string, c: char): (i: nat)
    requires c in s
    ensures i < |s| && s[i] == c && c !in s[..i]
  {
    if s[0] == c then 0 else 1 + IndexOf(s[1..], c)
  }

  /** A line ending in `\r\n` loses its `\r` as well. */
  function StripCr(l: string): string {
    if l != [] && l[|l| - 1] == '\r' then l[..|l| - 1] else l
  }

  /** `BufRead::lines`: the text split at `\n`, each line without its terminator. */
  function Lines(s: string): (ls: seq<string>)
    ensures forall i :: 0 <= i < |ls| ==> '\n' !in ls[i]
    decreases |s|
  {
    if s == [] then []
    else if '\n' in s then
      var i := IndexOf(s, '\n');
      var line := StripCr(s[..i]);
      [line] + Lines(s[i + 1..])
    else [s]
  }

  /** The lines, each followed by `\n`. */
  function Terminated(ls: seq<string>): string {
    if ls == [] then [] else ls[0] + "\n" + Terminated(ls[1..])
  }

  /** The first occurrence of `c` is right after a prefix free of it. */
  lemma {:induction false} IndexOfFirst(a: string, c: char, b: string)
    requires c !in a
    ensures c in a + [c] + b && IndexOf(a + [c] + b, c) == |a|
  {
    var s := a + [c] + b;
    assert s[|a|] == c;
    if a != [] {
      assert s[0] == a[0];
      assert s[1..] == a[1..] + [c] + b;
      IndexOfFirst(a[1..], c, b);
    }
  }

  /**
   * Reading back lines that hold no `\n` and do not end in `\r`, each
   * written with its terminator, gives the lines.
   */
  lemma {:induction false} LinesOfTerminated(ls: seq<string>)
    requires forall i :: 0 <= i < |ls| ==> '\n' !in ls[i] && (ls[i] == [] || ls[i][|ls[i]| - 1] != '\r')
    ensures Lines(Terminated(ls)) == ls
  {
    if ls != [] {
      var s := Terminated(ls);
      var rest := Terminated(ls[1..]);
      assert s == ls[0] + ['\n'] + rest;
      IndexOfFirst(ls[0], '\n', rest);
      assert s[..|ls[0]|] == ls[0];
      assert s[|ls[0]| + 1..] == rest;
      LinesOfTerminated(ls[1..]);
    }
  }

  /**
   * `String::truncate(n)`: keep at most the first `n` characters. Rust
   * counts bytes; the daemon truncates only ASCII timestamps, where bytes
   * and characters coincide.
   */
  function Truncate(s: string, n: nat): (r: string)
    ensures |r| <= n && StartsWith(s, r)
    ensures |s| <= n ==> r == s
    ensures |s| > n ==> |r| == n && r == s[..n]
  {
    if |s| <= n then s else s[..n]
  }

  function Digit(d: nat): (c: char)
    requires d < 10
    ensures IsDigit(c) && c as int - '0' as int == d
  {
    ('0' as int + d) as char
  }

  function Pow10(k: nat): (p: nat)
    ensures p >= 1
  {
    if k == 0 then 1 else 10 * Pow10(k - 1)
  }

  /** Decimal formatting of a `nat` (`to_string`). */
  function NatToString(n: nat): (s: string)
    ensures |s| >= 1 && AllDigits(s)
  {
    if n < 10 then [Digit(n)] else NatToString(n / 10) + [Digit(n % 10)]
  }

  /** Decimal formatting of an `i64` or `i32` (`to_string`, `{}`). */
  function IntToString(i: int): string {
    if i < 0 then "-" + NatToString(-i) else NatToString(i)
  }

  /** The value of a run of decimal digits. */
  function DigitsValue(s: string): (v: nat)
    requires AllDigits(s)
    ensures v < Pow10(|s|)
  {
    if s == [] then 0
    else DigitsValue(s[..|s| - 1]) * 10 + (s[|s| - 1] as int - '0' as int)
  }

  lemma {:induction false} DigitsValueOfNat(n: nat)
    ensures DigitsValue(NatToString(n)) == n
  {
    if n >= 10 {
      var s := NatToString(n);
      assert s[..|s| - 1] == NatToString(n / 10);
      DigitsValueOfNat(n / 10);
    }
  }

  /** A `k`-digit number is written with `k` characters. */
  lemma {:induction false} NatToStringLength(n: nat, k: nat)
    requires k >= 1 && n < Pow10(k) && (k == 1 || Pow10(k - 1) <= n)
    ensures |NatToString(n)| == k
  {
    if k > 1 {
      assert n >= 10 by { if k > 2 { assert Pow10(k - 1) == 10 * Pow10(k - 2); } }
      assert Pow10(k) == 10 * Pow10(k - 1);
      if k > 2 {
        assert Pow10(k - 1) == 10 * Pow10(k - 2);
      }
      NatToStringLength(n / 10, k - 1);
    }
  }

  const USIZE_MAX: nat := 0xFFFF_FFFF_FFFF_FFFF
  const I32_MIN: int := -0x8000_0000
  const I32_MAX: int := 0x7FFF_FFFF

  /**
   * `str::parse` for an unsigned integer type whose largest value is `max`:
   * an optional `+`, then one or more ASCII digits, and no overflow.
   */
  function ParseUnsigned(s: string, max: nat): (r: Option<nat>)
    ensures r.Some? ==> r.value <= max
  {
    if s == [] then None
    else
      var digits := if s[0] == '+' then s[1..] else s;
      if digits == [] || !AllDigits(digits) then None
      else if DigitsValue(digits) <= max then Some(DigitsValue(digits))
      else None
  }

  /** Parsing the decimal representation of a number within range gives the number back. */
  lemma ParseNatToString(n: nat, max: nat)
    requires n <= max
    ensures ParseUnsigned(NatToString(n), max) == Some(n)
  {
    DigitsValueOfNat(n);
    assert IsDigit(NatToString(n)[0]);
  }

  /**
   * `str::parse` for a signed integer type with range `min..=max`: an
   * optional `+` or `-`, then one or more ASCII digits, and no overflow.
   */
  function ParseSigned(s: string, min: int, max: int): (r: Option<int>)
    ensures r.Some? ==> min <= r.value <= max
  {
    if s == [] then None
    else
      var negative := s[0] == '-';
      var digits := if s[0] == '+' || s[0] == '-' then s[1..] else s;
      if digits == [] || !AllDigits(digits) then None
      else
        var magnitude: int := DigitsValue(digits);
        var v := if negative then -magnitude else magnitude;
        if min <= v <= max then Some(v) else None
  }

  /** Parsing the decimal representation of an integer within range gives it back. */
  lemma ParseIntToString(i: int, min: int, max: int)
    requires min <= i <= max
    ensures ParseSigned(IntToString(i), min, max) == Some(i)
  {
    var d := NatToString(if i < 0 then -i else i);
    DigitsValueOfNat(if i < 0 then -i else i);
    assert IsDigit(d[0]);
    if i < 0 {
      assert IntToString(i)[1..] == d;
    }
  }

  /** Bytes taken by a character in UTF-8. */
  function Utf8Width(c: char): (w: nat)
    ensures 1 <= w <= 4
  {
    if c as int < 0x80 then 1
    else if c as int < 0x800 then 2
    else if c as int < 0x1_0000 then 3
    else 4
  }

  /** `str::len`: the length in UTF-8 bytes. */
  function ByteLen(s: string): (n: nat)
    ensures |s| <= n
  {
    if s == [] then 0 else Utf8Width(s[0]) + ByteLen(s[1..])
  }

  lemma {:induction false} ByteLenAppend(a: string, b: string)
    ensures ByteLen(a + b) == ByteLen(a) + ByteLen(b)
  {
    if a == [] {
      assert a + b == b;
    } else {
      assert (a + b)[1..] == a[1..] + b;
      ByteLenAppend(a[1..], b);
    }
  }

  predicate IsAscii(s: string) {
    forall i :: 0 <= i < |s| ==> s[i] as int < 0x80
  }

  lemma {:induction false} ByteLenAscii(s: string)
    requires IsAscii(s)
    ensures ByteLen(s) == |s|
  {
    if s != [] {
      ByteLenAscii(s[1..]);
    }
  }

  /** The number of leading characters of `s` that fit in `n` bytes. */
  function CharsWithin(s: string, n: nat): (k: nat)
    ensures k <= |s|
  {
    if s == [] || Utf8Width(s[0]) > n then 0
    else 1 + CharsWithin(s[1..], n - Utf8Width(s[0]))
  }

  /** `CharsWithin` gives the longest prefix whose encoding fits in `n` bytes. */
  lemma {:induction false} CharsWithinBounds(s: string, n: nat)
    ensures ByteLen(s[..CharsWithin(s, n)]) <= n
    ensures CharsWithin(s, n) < |s| ==> ByteLen(s[..CharsWithin(s, n) + 1]) > n
  {
    var k := CharsWithin(s, n);
    if s == [] || Utf8Width(s[0]) > n {
      assert s[..0] == [];
      assert s != [] ==> s[..1][1..] == [];
    } else {
      CharsWithinBounds(s[1..], n - Utf8Width(s[0]));
      assert s[..k][1..] == s[1..][..k - 1];
      assert k < |s| ==> s[..k + 1][1..] == s[1..][..k];
    }
  }

  /** Within an ASCII prefix of at most `n` characters every character fits. */
  lemma {:induction false} CharsWithinAsciiPrefix(a: string, b: string, n: nat)
    requires IsAscii(a) && |a| <= n
    ensures CharsWithin(a + b, n) == |a| + CharsWithin(b, n - |a|)
  {
    if a != [] {
      assert (a + b)[1..] == a[1..] + b;
      CharsWithinAsciiPrefix(a[1..], b, n - 1);
    } else {
      assert a + b == b;
    }
  }
}
