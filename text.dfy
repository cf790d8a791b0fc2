/** The string operations the application relies on, written out:
    JavaScript's white space, `trim`, ASCII case mapping, `includes`,
    `split` and `join` on one character, decimal rendering of integers,
    and the two regular expressions used to validate e-mail addresses
    and phone numbers. */
module Text {

  /** The characters of JavaScript's `\s` class; `String.prototype.trim`
      removes exactly these from both ends. */
  predicate IsSpace(c: char) {
    || c == ' ' || c == '\t' || c == '\n' || c == '\r' || c == '\U{B}' || c == '\U{C}'
    || c == '\U{A0}' || c == '\U{1680}' || ('\U{2000}' <= c <= '\U{200A}')
    || c == '\U{2028}' || c == '\U{2029}' || c == '\U{202F}' || c == '\U{205F}'
    || c == '\U{3000}' || c == '\U{FEFF}'
  }

  predicate AllSpace(s: string) {
    forall i | 0 <= i < |s| :: IsSpace(s[i])
  }

  /** Leading white space removed; the result does not start with any.
      `TrimStartShape` relates it to `s`. */
  function TrimStart(s: string): (r: string)
    ensures |r| <= |s|
    ensures r == [] || !IsSpace(r[0])
  {
    if s != [] && IsSpace(s[0]) then TrimStart(s[1..]) else s
  }

  /** Trailing white space removed; the result does not end with any.
      `TrimEndShape` relates it to `s`. */
  function TrimEnd(s: string): (r: string)
    ensures |r| <= |s|
    ensures r == [] || !IsSpace(r[|r| - 1])
  {
    if s != [] && IsSpace(s[|s| - 1]) then TrimEnd(s[..|s| - 1]) else s
  }

  /** `trimStart` keeps the end of `s`, and what it cut is all white space. */
  lemma {:induction false} TrimStartShape(s: string)
    ensures forall i | 0 <= i < |TrimStart(s)| :: TrimStart(s)[i] == s[|s| - |TrimStart(s)| + i]
    ensures forall i | 0 <= i < |s| - |TrimStart(s)| :: IsSpace(s[i])
  {
    if s != [] && IsSpace(s[0]) {
      var tail := s[1..];
      var r := TrimStart(tail);
      assert TrimStart(s) == r;
      TrimStartShape(tail);
      var k := |s| - |r|;
      forall i | 0 <= i < |r| ensures r[i] == s[k + i] {
        assert r[i] == tail[|tail| - |r| + i];
        assert tail[k - 1 + i] == s[k + i];
      }
      forall i | 0 < i < k ensures IsSpace(s[i]) {
        assert tail[i - 1] == s[i];
      }
    } else {
      assert TrimStart(s) == s;
    }
  }

  /** `trimEnd` keeps the start of `s`, and what it cut is all white space. */
  lemma {:induction false} TrimEndShape(s: string)
    ensures forall i | 0 <= i < |TrimEnd(s)| :: TrimEnd(s)[i] == s[i]
    ensures forall i | |TrimEnd(s)| <= i < |s| :: IsSpace(s[i])
  {
    if s != [] && IsSpace(s[|s| - 1]) {
      var r := TrimEnd(s[..|s| - 1]);
      TrimEndShape(s[..|s| - 1]);
      forall i | 0 <= i < |r| ensures r[i] == s[i] {
        assert s[..|s| - 1][i] == s[i];
      }
      forall i | |r| <= i < |s| - 1 ensures IsSpace(s[i]) {
        assert s[..|s| - 1][i] == s[i];
      }
    }
  }

  /** `s.trim()` */
  function Trim(s: string): string {
    TrimEnd(TrimStart(s))
  }

  /** Every character white space: `trimStart` leaves nothing. */
  lemma {:induction false} TrimStartAllSpace(s: string)
    requires AllSpace(s)
    ensures TrimStart(s) == []
  {
    if s != [] {
      assert AllSpace(s[1..]) by {
        forall i | 0 <= i < |s| - 1 ensures IsSpace(s[1..][i]) {
          assert s[1..][i] == s[i + 1];
        }
      }
      TrimStartAllSpace(s[1..]);
    }
  }

  /** A string is blank (empty after `trim`) exactly when every character
      of it is white space. */
  lemma TrimEmptyIffAllSpace(s: string)
    ensures Trim(s) == [] <==> AllSpace(s)
  {
    var t := TrimStart(s);
    if AllSpace(s) {
      TrimStartAllSpace(s);
    } else {
      TrimStartShape(s);
      TrimEndShape(t);
    }
  }

  /** A trimmed string that is not empty starts and ends with a character
      that is not white space, and it occurs inside `s`. */
  lemma TrimBounds(s: string)
    ensures var r := Trim(s); r == [] || (!IsSpace(r[0]) && !IsSpace(r[|r| - 1]))
    ensures |Trim(s)| <= |s|
  {
    var t := TrimStart(s);
    var r := TrimEnd(t);
    TrimEndShape(t);
    if r != [] {
      assert r[0] == t[0];
    }
  }

  function LowerChar(c: char): char {
    if 'A' <= c <= 'Z' then (c as int + 32) as char else c
  }

  function UpperChar(c: char): char {
    if 'a' <= c <= 'z' then (c as int - 32) as char else c
  }

  /** `s.toLowerCase()` on the ASCII letters. */
  function Lower(s: string): string {
    seq(|s|, i requires 0 <= i < |s| => LowerChar(s[i]))
  }

  /** `s.toUpperCase()` on the ASCII letters. */
  function Upper(s: string): string {
    seq(|s|, i requires 0 <= i < |s| => UpperChar(s[i]))
  }

  predicate IsUpperLetter(c: char) { 'A' <= c <= 'Z' }
  predicate IsLowerLetter(c: char) { 'a' <= c <= 'z' }

  /** Lower-casing keeps the length, leaves no upper-case ASCII letter, and
      doing it twice changes nothing more. */
  lemma LowerProperties(s: string)
    ensures |Lower(s)| == |s|
    ensures forall i | 0 <= i < |s| :: !IsUpperLetter(Lower(s)[i])
    ensures Lower(Lower(s)) == Lower(s)
  {
  }

  /** Upper-casing keeps the length and leaves no lower-case ASCII letter. */
  lemma UpperProperties(s: string)
    ensures |Upper(s)| == |s|
    ensures forall i | 0 <= i < |s| :: !IsLowerLetter(Upper(s)[i])
    ensures Upper(Upper(s)) == Upper(s)
  {
  }

  /** `t` occurs in `s` starting at position `i`. */
  predicate OccursAt(s: string, t: string, i: int) {
    0 <= i && i + |t| <= |s| && s[i..i + |t|] == t
  }

  /** `s.includes(t)`: `t` occurs in `s` at some position. */
  predicate Contains(s: string, t: string) {
    exists i | 0 <= i <= |s| - |t| :: OccursAt(s, t, i)
  }

  /** Every string includes the empty string. */
  lemma ContainsEmpty(s: string)
    ensures Contains(s, "")
  {
    assert OccursAt(s, "", 0);
  }

  /** A string with no white space at either end is its own trim. */
  lemma TrimKeeps(s: string)
    requires s == [] || (!IsSpace(s[0]) && !IsSpace(s[|s| - 1]))
    ensures Trim(s) == s
  {
  }

  /** `s.startsWith(t)` */
  predicate StartsWith(s: string, t: string) {
    |t| <= |s| && s[..|t|] == t
  }

  /** `parts.join(sep)` */
  function Join(parts: seq<string>, sep: string): string
    decreases |parts|
  {
    if |parts| == 0 then ""
    else if |parts| == 1 then parts[0]
    else parts[0] + sep + Join(parts[1..], sep)
  }

  /** `s.split(sep)` for a one-character separator: the pieces between the
      separators, in order, empty pieces included (so "" splits into [""]). */
  function Split(s: string, sep: char): (r: seq<string>)
    ensures |r| >= 1
    ensures forall i | 0 <= i < |r| :: sep !in r[i]
  {
    if |s| == 0 then [""]
    else
      var rest := Split(s[1..], sep);
      if s[0] == sep then [""] + rest
      else [[s[0]] + rest[0]] + rest[1..]
  }

  /** Every character of a piece of a split occurs in the string split. */
  lemma {:induction false} SplitPiecesFromString(s: string, sep: char)
    ensures forall i, c | 0 <= i < |Split(s, sep)| && c in Split(s, sep)[i] :: c in s
  {
    if |s| > 0 {
      SplitPiecesFromString(s[1..], sep);
      var rest := Split(s[1..], sep);
      forall i, c | 0 <= i < |Split(s, sep)| && c in Split(s, sep)[i]
        ensures c in s
      {
        if s[0] == sep {
          assert Split(s, sep) == [""] + rest;
          if i > 0 {
            assert Split(s, sep)[i] == rest[i - 1];
            assert c in s[1..];
          }
        } else {
          assert Split(s, sep) == [[s[0]] + rest[0]] + rest[1..];
          if i == 0 {
            assert c == s[0] || c in rest[0];
            if c != s[0] {
              assert c in s[1..];
            }
          } else {
            assert Split(s, sep)[i] == rest[i];
            assert c in s[1..];
          }
        }
      }
    }
  }

  /** Joining the pieces of a split with the separator gives back the
      original string. */
  lemma {:induction false} JoinSplit(s: string, sep: char)
    ensures Join(Split(s, sep), [sep]) == s
  {
    if |s| > 0 {
      var rest := Split(s[1..], sep);
      JoinSplit(s[1..], sep);
      if s[0] == sep {
        assert Split(s, sep) == [""] + rest;
        assert Join([""] + rest, [sep]) == "" + [sep] + Join(rest, [sep]);
      } else {
        var r := [[s[0]] + rest[0]] + rest[1..];
        assert Split(s, sep) == r;
        if |rest| == 1 {
          assert Join(r, [sep]) == [s[0]] + rest[0];
        } else {
          assert Join(rest, [sep]) == rest[0] + [sep] + Join(rest[1..], [sep]);
          assert r[1..] == rest[1..];
          assert Join(r, [sep]) == [s[0]] + rest[0] + [sep] + Join(rest[1..], [sep]);
        }
      }
    }
  }

  /** A string without the separator splits into itself alone. */
  lemma {:induction false} SplitNoSeparator(s: string, sep: char)
    requires sep !in s
    ensures Split(s, sep) == [s]
  {
    if |s| > 0 {
      assert s[0] in s;
      assert sep !in s[1..];
      SplitNoSeparator(s[1..], sep);
      assert [s[0]] + s[1..] == s;
    }
  }

  /** Splitting `a + [sep] + b`, where `a` has no separator, gives `a`
      followed by the pieces of `b`. */
  lemma {:induction false} SplitAtFirst(a: string, sep: char, b: string)
    requires sep !in a
    ensures Split(a + [sep] + b, sep) == [a] + Split(b, sep)
  {
    var s := a + [sep] + b;
    if |a| == 0 {
      assert s[1..] == b;
    } else {
      assert s[1..] == a[1..] + [sep] + b;
      assert sep !in a[1..];
      SplitAtFirst(a[1..], sep, b);
      assert [a[0]] + a[1..] == a;
    }
  }

  /** Splitting the join of separator-free pieces gives back the pieces. */
  lemma {:induction false} SplitJoin(parts: seq<string>, sep: char)
    requires |parts| >= 1
    requires forall i | 0 <= i < |parts| :: sep !in parts[i]
    ensures Split(Join(parts, [sep]), sep) == parts
  {
    if |parts| == 1 {
      SplitNoSeparator(parts[0], sep);
    } else {
      SplitJoin(parts[1..], sep);
      SplitAtFirst(parts[0], sep, Join(parts[1..], [sep]));
      assert [parts[0]] + parts[1..] == parts;
    }
  }

  function DigitChar(d: int): char
    requires 0 <= d < 10
  {
    ('0' as int + d) as char
  }

  predicate IsDigit(c: char) { '0' <= c <= '9' }

  /** The decimal digits of `n`, as `String(n)` writes them. */
  function NatToString(n: nat): (r: string)
    ensures |r| >= 1
    ensures forall i | 0 <= i < |r| :: IsDigit(r[i])
    ensures r[0] == '0' ==> n == 0
  {
    if n < 10 then [DigitChar(n)] else NatToString(n / 10) + [DigitChar(n % 10)]
  }

  /** The value of a string of decimal digits. */
  function ParseDigits(s: string): nat
    requires forall i | 0 <= i < |s| :: IsDigit(s[i])
  {
    if |s| == 0 then 0
    else
      assert IsDigit(s[|s| - 1]);
      10 * ParseDigits(s[..|s| - 1]) + (s[|s| - 1] as int - '0' as int)
  }

  /** Reading the decimal rendering of `n` back gives `n`. */
  lemma {:induction false} ParseNatToString(n: nat)
    ensures ParseDigits(NatToString(n)) == n
  {
    var s := NatToString(n);
    if n >= 10 {
      ParseNatToString(n / 10);
      assert s[..|s| - 1] == NatToString(n / 10);
    }
  }

  /** `String(i)` for an integer, with a leading '-' when negative. */
  function IntToString(i: int): string {
    if i < 0 then "-" + NatToString(-i) else NatToString(i)
  }

  /** `/\S+@\S+\.\S+/.test(s)`: somewhere in `s` a non-space character is
      followed by '@', one or more non-space characters, '.', and one more
      non-space character. */
  predicate MatchesEmailPattern(s: string) {
    exists at, dot | 0 < at < |s| && 0 < dot < |s| - 1 :: EmailShapeAt(s, at, dot)
  }

  /** The match of the e-mail pattern with its '@' at `at` and its '.'
      at `dot`. */
  predicate EmailShapeAt(s: string, at: int, dot: int) {
    && 0 < at && at + 1 < dot && dot + 1 < |s|
    && !IsSpace(s[at - 1]) && s[at] == '@' && s[dot] == '.' && !IsSpace(s[dot + 1])
    && forall k | at < k < dot :: !IsSpace(s[k])
  }

  /** An address without '@' never matches, nor does one shorter than
      "a@b.c". */
  lemma EmailPatternNeedsAt(s: string)
    requires MatchesEmailPattern(s)
    ensures '@' in s && |s| >= 5
  {
    var at, dot :| 0 < at < |s| && 0 < dot < |s| - 1 && EmailShapeAt(s, at, dot);
    assert s[at] in s;
  }

  /** A white-space-free string of the form local@domain.tld (each part
      non-empty) matches. */
  lemma EmailPatternAccepts(local: string, domain: string, tld: string)
    requires local != [] && domain != [] && tld != []
    requires !exists c | c in local + domain + tld :: IsSpace(c)
    ensures MatchesEmailPattern(local + "@" + domain + "." + tld)
  {
    var s := local + "@" + domain + "." + tld;
    var at := |local|;
    var dot := |local| + 1 + |domain|;
    assert s[at - 1] == local[|local| - 1] && s[at - 1] in local + domain + tld;
    assert s[dot + 1] == tld[0] && s[dot + 1] in local + domain + tld;
    assert s[at] == '@' && s[dot] == '.';
    forall k | at < k < dot ensures !IsSpace(s[k]) {
      assert s[k] == domain[k - at - 1] && s[k] in local + domain + tld;
    }
    assert EmailShapeAt(s, at, dot);
  }

  predicate IsPhoneChar(c: char) {
    IsDigit(c) || IsSpace(c) || c == '-' || c == '(' || c == ')'
  }

  /** `/^\+?[\d\s-()]+$/.test(s)`: an optional '+' followed by one or more
      digits, white space, '-', '(' or ')'. */
  predicate MatchesPhonePattern(s: string) {
    if |s| > 0 && s[0] == '+' then PhoneBody(s[1..]) else PhoneBody(s)
  }

  /** `[\d\s-()]+`, the whole of `b`. */
  predicate PhoneBody(b: string) {
    |b| > 0 && forall i | 0 <= i < |b| :: IsPhoneChar(b[i])
  }

  /** A character that is neither in the separator nor in any part is not
      in their join. */
  lemma {:induction false} JoinAvoids(parts: seq<string>, sep: string, c: char)
    requires c !in sep
    requires forall i | 0 <= i < |parts| :: c !in parts[i]
    ensures c !in Join(parts, sep)
    decreases |parts|
  {
    if |parts| > 1 {
      JoinAvoids(parts[1..], sep, c);
    }
  }

  /** `a.localeCompare(b) <= 0`, taken as the order of the characters'
      codes, position by position, a prefix coming first. */
  predicate LexLe(a: string, b: string)
    decreases |a|
  {
    |a| == 0 || (|b| > 0 && (a[0] < b[0] || (a[0] == b[0] && LexLe(a[1..], b[1..]))))
  }

  /** Any two strings are ordered one way or the other. */
  lemma {:induction false} LexLeTotal(a: string, b: string)
    ensures LexLe(a, b) || LexLe(b, a)
    decreases |a|
  {
    if |a| > 0 && |b| > 0 && a[0] == b[0] {
      LexLeTotal(a[1..], b[1..]);
    }
  }

  /** The order is transitive. */
  lemma {:induction false} LexLeTrans(a: string, b: string, c: string)
    requires LexLe(a, b) && LexLe(b, c)
    ensures LexLe(a, c)
    decreases |a|
  {
    if |a| > 0 && a[0] == b[0] && b[0] == c[0] {
      LexLeTrans(a[1..], b[1..], c[1..]);
    }
  }

  /** Two strings each ordered before the other are equal: the order only
      ties equal strings. */
  lemma {:induction false} LexLeAntisymmetric(a: string, b: string)
    requires LexLe(a, b) && LexLe(b, a)
    ensures a == b
    decreases |a|
  {
    if |a| > 0 {
      LexLeAntisymmetric(a[1..], b[1..]);
      assert a == [a[0]] + a[1..] && b == [b[0]] + b[1..];
    }
  }
}
