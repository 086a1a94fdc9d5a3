/**
  The JavaScript string operations the two screens rely on, written out on
  `seq<char>`: `split` and `join` with a one-character separator, `trim`,
  `toLowerCase`, `includes`, `endsWith`, `replace` of the first occurrence of
  a character, the global `.replace(/x/g, y)` and number-to-string.
 */
module Text {

  /** The characters ECMAScript's `String.prototype.trim` strips. */
  predicate IsWhite(ch: char) {
    || ch == ' ' || ch == '\t' || ch == '\n' || ch == '\r'
    || ch == '\U{000B}' || ch == '\U{000C}' || ch == '\U{00A0}' || ch == '\U{1680}'
    || ('\U{2000}' <= ch <= '\U{200A}')
    || ch == '\U{2028}' || ch == '\U{2029}' || ch == '\U{202F}' || ch == '\U{205F}'
    || ch == '\U{3000}' || ch == '\U{FEFF}'
  }

  predicate AllWhite(s: string) {
    forall k :: 0 <= k < |s| ==> IsWhite(s[k])
  }

  /** A string with no white space at either end: what `trim` returns. */
  predicate Trimmed(s: string) {
    s == [] || (!IsWhite(s[0]) && !IsWhite(s[|s| - 1]))
  }

  function TrimStart(s: string): (r: string)
    ensures |r| <= |s|
  {
    if s != [] && IsWhite(s[0]) then TrimStart(s[1..]) else s
  }

  /** What `trimStart` keeps is a suffix of its input. */
  lemma {:induction false} TrimStartSuffix(s: string)
    ensures TrimStart(s) == s[|s| - |TrimStart(s)|..]
  {
    if s != [] && IsWhite(s[0]) {
      TrimStartSuffix(s[1..]);
    }
  }

  /** `trimStart` strips exactly the white space in front. */
  lemma {:induction false} TrimStartSpec(s: string)
    ensures AllWhite(s[..|s| - |TrimStart(s)|])
    ensures TrimStart(s) == [] || !IsWhite(TrimStart(s)[0])
  {
    if s != [] && IsWhite(s[0]) {
      TrimStartSpec(s[1..]);
      var n := |s| - |TrimStart(s)|;
      assert s[..n] == [s[0]] + s[1..][..n - 1];
    }
  }

  function TrimEnd(s: string): (r: string)
    ensures |r| <= |s|
  {
    if s != [] && IsWhite(s[|s| - 1]) then TrimEnd(s[..|s| - 1]) else s
  }

  /** What `trimEnd` keeps is a prefix of its input. */
  lemma {:induction false} TrimEndPrefix(s: string)
    ensures TrimEnd(s) == s[..|TrimEnd(s)|]
  {
    if s != [] && IsWhite(s[|s| - 1]) {
      TrimEndPrefix(s[..|s| - 1]);
    }
  }

  /** `trimEnd` strips exactly the white space at the back. */
  lemma {:induction false} TrimEndSpec(s: string)
    ensures AllWhite(s[|TrimEnd(s)|..])
    ensures TrimEnd(s) == [] || !IsWhite(TrimEnd(s)[|TrimEnd(s)| - 1])
  {
    if s != [] && IsWhite(s[|s| - 1]) {
      TrimEndSpec(s[..|s| - 1]);
      var n := |TrimEnd(s)|;
      assert s[n..] == s[..|s| - 1][n..] + [s[|s| - 1]];
    }
  }

  /** `s.trim()`. */
  function Trim(s: string): (r: string)
    ensures |r| <= |s|
  {
    TrimEnd(TrimStart(s))
  }

  /** How much white space `trim` strips from the front. */
  function Leading(s: string): nat {
    |s| - |TrimStart(s)|
  }

  /** `trim` returns the slice of `s` between white space at the front and
      white space at the back, and that slice has no white space at its ends. */
  lemma TrimSpec(s: string)
    ensures Trimmed(Trim(s))
    ensures Leading(s) + |Trim(s)| <= |s| && Trim(s) == s[Leading(s)..Leading(s) + |Trim(s)|]
    ensures AllWhite(s[..Leading(s)]) && AllWhite(s[Leading(s) + |Trim(s)|..])
  {
    TrimIsTrimmed(s);
    TrimStrips(s);
    TrimStartSuffix(s);
    TrimEndPrefix(TrimStart(s));
  }

  lemma TrimIsTrimmed(s: string)
    ensures Trimmed(Trim(s))
  {
    var t := TrimStart(s);
    TrimStartSpec(s);
    TrimEndSpec(t);
    TrimEndPrefix(t);
    if Trim(s) != [] {
      assert Trim(s)[0] == t[0];
    }
  }

  lemma TrimStrips(s: string)
    ensures AllWhite(s[..Leading(s)]) && AllWhite(s[Leading(s) + |Trim(s)|..])
  {
    TrimStartSpec(s);
    TrimStripsBack(s);
  }

  lemma TrimStripsBack(s: string)
    ensures AllWhite(s[Leading(s) + |Trim(s)|..])
  {
    var t := TrimStart(s);
    TrimEndSpec(t);
    TrimStartSuffix(s);
    assert s[Leading(s) + |Trim(s)|..] == t[|Trim(s)|..];
  }

  /** A line is blank for `line.trim()` exactly when it is all white space. */
  lemma TrimEmptyIffAllWhite(s: string)
    ensures Trim(s) == [] <==> AllWhite(s)
  {
    TrimSpec(s);
    var r := Trim(s);
    var i := Leading(s);
    if r == [] {
      forall k | 0 <= k < |s| ensures IsWhite(s[k]) {
        if k < i { assert s[..i][k] == s[k]; } else { assert s[i..][k - i] == s[k]; }
      }
    } else {
      assert s[i] == r[0];
    }
  }

  /** `trim` leaves a string that is already trimmed as it is. */
  lemma TrimTrimmed(s: string)
    requires Trimmed(s)
    ensures Trim(s) == s
  {
    if s != [] {
      assert TrimStart(s) == s;
    }
  }

  function LowerChar(ch: char): char {
    if 'A' <= ch <= 'Z' then (ch as int - 'A' as int + 'a' as int) as char else ch
  }

  /** `s.toLowerCase()` on the ASCII letters. */
  function ToLower(s: string): (r: string)
    ensures |r| == |s|
  {
    seq(|s|, k requires 0 <= k < |s| => LowerChar(s[k]))
  }

  /** The small letters, in the order of their capitals. */
  const SmallLetters := "abcdefghijklmnopqrstuvwxyz"

  /** The letter at position `j` of the alphabet table is `j` places after 'a'. */
  lemma SmallLetterAt(j: int)
    requires 0 <= j < 26
    ensures SmallLetters[j] == (j + 'a' as int) as char
  {
    assert SmallLetters == ['a', 'b', 'c', 'd', 'e', 'f', 'g', 'h', 'i', 'j', 'k', 'l', 'm',
                            'n', 'o', 'p', 'q', 'r', 's', 't', 'u', 'v', 'w', 'x', 'y', 'z'];
  }

  /** Lower-casing turns each capital into its own small letter and keeps
      every other character; so no capital survives, and doing it twice is
      doing it once. */
  lemma ToLowerSpec(s: string)
    ensures forall k :: 0 <= k < |s| && !('A' <= s[k] <= 'Z') ==> ToLower(s)[k] == s[k]
    ensures forall k :: 0 <= k < |s| && 'A' <= s[k] <= 'Z' ==> ToLower(s)[k] == SmallLetters[s[k] as int - 'A' as int]
    ensures forall k :: 0 <= k < |s| ==> !('A' <= ToLower(s)[k] <= 'Z')
    ensures ToLower(ToLower(s)) == ToLower(s)
  {
    forall k | 0 <= k < |s| && 'A' <= s[k] <= 'Z'
      ensures ToLower(s)[k] == SmallLetters[s[k] as int - 'A' as int]
    {
      SmallLetterAt(s[k] as int - 'A' as int);
    }
  }

  /** `sub` occurs in `s` starting at position `i`. */
  predicate OccursAt(s: string, sub: string, i: int) {
    0 <= i <= |s| - |sub| && s[i..i + |sub|] == sub
  }

  /** `s.includes(sub)`. */
  predicate Contains(s: string, sub: string) {
    exists i | 0 <= i <= |s| - |sub| :: OccursAt(s, sub, i)
  }

  /** Every string includes the empty string. */
  lemma ContainsEmpty(s: string)
    ensures Contains(s, "")
  {
    assert OccursAt(s, "", 0);
  }

  /** A string lacking one of the characters of `sub` does not include `sub`. */
  lemma MissingCharBlocks(s: string, sub: string, ch: char)
    requires ch in sub && ch !in s
    ensures !Contains(s, sub)
  {
    var k :| 0 <= k < |sub| && sub[k] == ch;
    forall i | 0 <= i <= |s| - |sub| ensures !OccursAt(s, sub, i) {
      assert s[i..i + |sub|][k] == s[i + k];
    }
  }

  /** `a + " " + b` does not include a space-free string as long as `a` and `b`
      together: every place it could start covers the space. */
  lemma SpaceBlocks(a: string, b: string, sub: string)
    requires |a| >= 1 && |b| >= 1 && |sub| == |a| + |b| && ' ' !in sub
    ensures !Contains(a + " " + b, sub)
  {
    var s := a + " " + b;
    forall i | 0 <= i <= |s| - |sub| ensures !OccursAt(s, sub, i) {
      assert s[|a|] == ' ';
      assert s[i..i + |sub|][|a| - i] == s[|a|];
      assert sub[|a| - i] in sub;
    }
  }

  predicate StartsWith(s: string, prefix: string) {
    |prefix| <= |s| && s[..|prefix|] == prefix
  }

  /** `s.endsWith(suffix)`. */
  predicate EndsWith(s: string, suffix: string) {
    |suffix| <= |s| && s[|s| - |suffix|..] == suffix
  }

  /** `s.split(sep)` with a one-character separator. */
  function Split(s: string, sep: char): (pieces: seq<string>)
    ensures |pieces| >= 1
  {
    if s == [] then [""]
    else if s[0] == sep then [""] + Split(s[1..], sep)
    else
      var rest := Split(s[1..], sep);
      [[s[0]] + rest[0]] + rest[1..]
  }

  /** No piece holds the separator. */
  lemma {:induction false} SplitSpec(s: string, sep: char)
    ensures forall k :: 0 <= k < |Split(s, sep)| ==> sep !in Split(s, sep)[k]
  {
    if s != [] {
      SplitSpec(s[1..], sep);
      var rest := Split(s[1..], sep);
      if s[0] != sep {
        assert Split(s, sep)[1..] == rest[1..];
      }
    }
  }

  /** `parts.join(sep)`. */
  function Join(parts: seq<string>, sep: string): string {
    if |parts| == 0 then ""
    else if |parts| == 1 then parts[0]
    else parts[0] + sep + Join(parts[1..], sep)
  }

  lemma JoinPair(a: string, b: string, sep: string)
    ensures Join([a, b], sep) == a + sep + b
  {
    assert [a, b][1..] == [b];
  }

  lemma AppendAssoc(x: string, y: string, z: string)
    ensures x + (y + z) == (x + y) + z
  {
  }

  /** Joining a list with four elements put in front. */
  lemma JoinFour(a: string, b: string, c: string, d: string, rest: seq<string>, sep: string)
    requires |rest| >= 1
    ensures Join([a, b, c, d] + rest, sep) == (a + sep) + ((b + sep) + ((c + sep) + ((d + sep) + Join(rest, sep))))
  {
    var s3 := [d] + rest;
    var s2 := [c] + s3;
    var s1 := [b] + s2;
    assert [a, b, c, d] + rest == [a] + s1;
    JoinCons(d, rest, sep);
    JoinCons(c, s3, sep);
    JoinCons(b, s2, sep);
    JoinCons(a, s1, sep);
  }

  /** Joining a list with an element put in front. */
  lemma JoinCons(a: string, rest: seq<string>, sep: string)
    requires |rest| >= 1
    ensures Join([a] + rest, sep) == a + sep + Join(rest, sep)
  {
    assert ([a] + rest)[1..] == rest;
  }

  lemma JoinConsChar(ch: char, parts: seq<string>, sep: string)
    requires |parts| >= 1
    ensures Join([[ch] + parts[0]] + parts[1..], sep) == [ch] + Join(parts, sep)
  {
    var q := [[ch] + parts[0]] + parts[1..];
    assert q[1..] == parts[1..];
  }

  /** Joining the pieces of a split with the same separator gives the string back. */
  lemma {:induction false} JoinSplit(s: string, sep: char)
    ensures Join(Split(s, sep), [sep]) == s
  {
    if s == [] {
    } else if s[0] == sep {
      var rest := Split(s[1..], sep);
      JoinSplit(s[1..], sep);
      assert ([""] + rest)[1..] == rest;
    } else {
      var rest := Split(s[1..], sep);
      JoinSplit(s[1..], sep);
      JoinConsChar(s[0], rest, [sep]);
    }
  }

  /** A string without the separator splits into itself alone. */
  lemma {:induction false} SplitNoSep(s: string, sep: char)
    requires sep !in s
    ensures Split(s, sep) == [s]
  {
    if s != [] {
      SplitNoSep(s[1..], sep);
      assert [s[0]] + s[1..] == s;
    }
  }

  /** Splitting stops at the first separator. */
  lemma {:induction false} SplitAtFirst(a: string, sep: char, b: string)
    requires sep !in a
    ensures Split(a + [sep] + b, sep) == [a] + Split(b, sep)
  {
    var s := a + [sep] + b;
    if a == [] {
      assert s[1..] == b;
    } else {
      assert s[1..] == a[1..] + [sep] + b;
      SplitAtFirst(a[1..], sep, b);
      assert [a[0]] + a[1..] == a;
    }
  }

  /** Splitting a join of separator-free pieces gives the pieces back. */
  lemma {:induction false} SplitJoin(parts: seq<string>, sep: char)
    requires |parts| >= 1
    requires forall k :: 0 <= k < |parts| ==> sep !in parts[k]
    ensures Split(Join(parts, [sep]), sep) == parts
  {
    if |parts| == 1 {
      SplitNoSep(parts[0], sep);
    } else {
      var tail := parts[1..];
      assert forall k :: 0 <= k < |tail| ==> sep !in tail[k] by {
        forall k | 0 <= k < |tail| ensures sep !in tail[k] { assert tail[k] == parts[k + 1]; }
      }
      SplitJoin(tail, sep);
      var joined := Join(tail, [sep]);
      assert Join(parts, [sep]) == parts[0] + [sep] + joined;
      SplitAtFirst(parts[0], sep, joined);
      assert [parts[0]] + tail == parts;
    }
  }

  /** A character that is in no part and not in the separator is not in the join. */
  lemma {:induction false} JoinAvoids(parts: seq<string>, sep: string, ch: char)
    requires ch !in sep
    requires forall k :: 0 <= k < |parts| ==> ch !in parts[k]
    ensures ch !in Join(parts, sep)
  {
    if |parts| > 1 {
      JoinAvoids(parts[1..], sep, ch);
    }
  }

  /** `s.replace(/ch/g, "")`: every occurrence of `ch` deleted. */
  function DeleteAll(s: string, ch: char): (r: string)
    ensures |r| <= |s|
  {
    if s == [] then []
    else (if s[0] == ch then [] else [s[0]]) + DeleteAll(s[1..], ch)
  }

  /** The deleted character is gone and nothing new appears. */
  lemma {:induction false} DeleteAllSpec(s: string, ch: char)
    ensures ch !in DeleteAll(s, ch)
    ensures forall c :: c in DeleteAll(s, ch) ==> c in s
  {
    if s != [] {
      DeleteAllSpec(s[1..], ch);
    }
  }

  /** Deleting a character that does not occur changes nothing. */
  lemma {:induction false} DeleteAllAbsent(s: string, ch: char)
    requires ch !in s
    ensures DeleteAll(s, ch) == s
  {
    if s != [] {
      DeleteAllAbsent(s[1..], ch);
    }
  }

  /** Deleting distributes over concatenation. */
  lemma {:induction false} DeleteAllAppend(a: string, b: string, ch: char)
    ensures DeleteAll(a + b, ch) == DeleteAll(a, ch) + DeleteAll(b, ch)
  {
    if a != [] {
      assert (a + b)[0] == a[0];
      assert (a + b)[1..] == a[1..] + b;
      DeleteAllAppend(a[1..], b, ch);
    } else {
      assert a + b == b;
    }
  }

  /** `s.replace(" ", "")` and the like: the FIRST occurrence of `ch` deleted. */
  function DeleteFirst(s: string, ch: char): (r: string) {
    if s == [] then []
    else if s[0] == ch then s[1..]
    else [s[0]] + DeleteFirst(s[1..], ch)
  }

  /** At most one character goes, and only when `ch` occurs. */
  lemma {:induction false} DeleteFirstSpec(s: string, ch: char)
    ensures ch !in s ==> DeleteFirst(s, ch) == s
    ensures ch in s ==> |DeleteFirst(s, ch)| == |s| - 1
  {
    if s != [] && s[0] != ch {
      DeleteFirstSpec(s[1..], ch);
      assert s == [s[0]] + s[1..];
    }
  }

  /** Only the first occurrence goes: what follows it is kept as it is. */
  lemma {:induction false} DeleteFirstAt(a: string, ch: char, b: string)
    requires ch !in a
    ensures DeleteFirst(a + [ch] + b, ch) == a + b
  {
    var s := a + [ch] + b;
    if a == [] {
      assert s[1..] == b;
    } else {
      assert s[1..] == a[1..] + [ch] + b;
      DeleteFirstAt(a[1..], ch, b);
      assert [a[0]] + (a[1..] + b) == a + b;
    }
  }

  /** `s.replace(/pattern/g, replacement)` for a literal pattern: a left-to-right
      scan replacing non-overlapping occurrences. */
  function ReplaceAll(s: string, pattern: string, replacement: string): string
    requires pattern != []
    decreases |s|
  {
    if s == [] then []
    else if StartsWith(s, pattern) then replacement + ReplaceAll(s[|pattern|..], pattern, replacement)
    else [s[0]] + ReplaceAll(s[1..], pattern, replacement)
  }

  /** Text that cannot start an occurrence is copied unchanged. */
  lemma {:induction false} ReplaceAllSkips(t: string, u: string, pattern: string, replacement: string)
    requires pattern != [] && pattern[0] !in t
    ensures ReplaceAll(t + u, pattern, replacement) == t + ReplaceAll(u, pattern, replacement)
  {
    if t != [] {
      var s := t + u;
      assert s[0] == t[0];
      assert !StartsWith(s, pattern) by {
        if |pattern| <= |s| { assert s[..|pattern|][0] == s[0]; }
      }
      assert s[1..] == t[1..] + u;
      ReplaceAllSkips(t[1..], u, pattern, replacement);
      assert [t[0]] + t[1..] == t;
    } else {
      assert t + u == u;
    }
  }

  /** An occurrence at the front is replaced and the scan resumes after it. */
  lemma ReplaceAllHit(u: string, pattern: string, replacement: string)
    requires pattern != []
    ensures ReplaceAll(pattern + u, pattern, replacement) == replacement + ReplaceAll(u, pattern, replacement)
  {
    var s := pattern + u;
    assert s[..|pattern|] == pattern;
    assert s[|pattern|..] == u;
  }

  function DigitChar(d: nat): char
    requires d < 10
  {
    "0123456789"[d]
  }

  /** `n.toString()` for a natural number: its decimal digits. */
  function NatToString(n: nat): (r: string)
    ensures |r| >= 1
    ensures forall k :: 0 <= k < |r| ==> '0' <= r[k] <= '9'
  {
    if n < 10 then [DigitChar(n)] else NatToString(n / 10) + [DigitChar(n % 10)]
  }

  /** The value of a string of decimal digits. */
  function DigitsValue(s: string): nat
    requires forall k :: 0 <= k < |s| ==> '0' <= s[k] <= '9'
  {
    if s == [] then 0 else 10 * DigitsValue(s[..|s| - 1]) + (s[|s| - 1] as int - '0' as int)
  }

  /** Reading back the digits gives the number: the decimal form is unambiguous. */
  lemma {:induction false} NatToStringValue(n: nat)
    ensures DigitsValue(NatToString(n)) == n
  {
    var r := NatToString(n);
    if n < 10 {
      assert r[..0] == [];
    } else {
      NatToStringValue(n / 10);
      assert r[..|r| - 1] == NatToString(n / 10);
    }
  }

  /** Distinct numbers have distinct decimal forms. */
  lemma NatToStringInjective(m: nat, n: nat)
    requires NatToString(m) == NatToString(n)
    ensures m == n
  {
    NatToStringValue(m);
    NatToStringValue(n);
  }
}
