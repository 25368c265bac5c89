/** The JavaScript built-ins the application relies on. Strings are
    `seq<char>`: `trim`, `toLowerCase` (ASCII letters), `startsWith`, `endsWith`,
    `indexOf`, `includes`, `split`, `join`, `padStart`, the UTF-16 `length` and
    the rendering of integers; numbers are reals or NaN, with `Math.trunc`,
    `%` and `Number.isInteger`. */
module JsBuiltins {

  /** ECMAScript WhiteSpace and LineTerminator code points: exactly what
      `String.prototype.trim` removes from both ends. */
  predicate IsJsSpace(c: char) {
    c == '\t' || c == '\n' || c == '\U{B}' || c == '\U{C}' || c == '\r' || c == ' ' ||
    c == '\U{A0}' || c == '\U{1680}' || ('\U{2000}' <= c <= '\U{200A}') ||
    c == '\U{2028}' || c == '\U{2029}' || c == '\U{202F}' || c == '\U{205F}' ||
    c == '\U{3000}' || c == '\U{FEFF}'
  }

  predicate AllSpace(s: string) {
    forall i | 0 <= i < |s| :: IsJsSpace(s[i])
  }

  /** Leading white space removed. */
  function TrimStart(s: string): string {
    if s == [] || !IsJsSpace(s[0]) then s else TrimStart(s[1..])
  }

  /** Trailing white space removed. */
  function TrimEnd(s: string): string {
    if s == [] || !IsJsSpace(s[|s| - 1]) then s else TrimEnd(s[..|s| - 1])
  }

  /** `s.trim()`. */
  function Trim(s: string): string {
    TrimEnd(TrimStart(s))
  }

  /** `TrimStart` keeps the longest suffix that does not start with white space. */
  lemma TrimStartFacts(s: string)
    ensures var r := TrimStart(s);
      && |r| <= |s| && r == s[|s| - |r|..]
      && AllSpace(s[..|s| - |r|])
      && (r != [] ==> !IsJsSpace(r[0]))
  {
    TrimStartSuffix(s);
    TrimStartSpaces(s);
    TrimStartHead(s);
  }

  lemma {:induction false} TrimStartSuffix(s: string)
    ensures |TrimStart(s)| <= |s| && TrimStart(s) == s[|s| - |TrimStart(s)|..]
  {
    if s != [] && IsJsSpace(s[0]) {
      TrimStartSuffix(s[1..]);
      var r := TrimStart(s[1..]);
      assert s[1..][|s| - 1 - |r|..] == s[|s| - |r|..];
    }
  }

  lemma {:induction false} TrimStartSpaces(s: string)
    ensures |TrimStart(s)| <= |s| && AllSpace(s[..|s| - |TrimStart(s)|])
  {
    if s != [] && IsJsSpace(s[0]) {
      var p := s[1..];
      TrimStartSpaces(p);
      var n := |p| - |TrimStart(p)|;
      var q := s[..n + 1];
      forall i | 0 <= i < |q| ensures IsJsSpace(q[i]) {
        if i > 0 {
          assert q[i] == p[..n][i - 1];
        }
      }
    }
  }

  lemma {:induction false} TrimStartHead(s: string)
    ensures TrimStart(s) != [] ==> !IsJsSpace(TrimStart(s)[0])
  {
    if s != [] && IsJsSpace(s[0]) {
      TrimStartHead(s[1..]);
    }
  }

  /** `TrimEnd` keeps the longest prefix that does not end with white space. */
  lemma TrimEndFacts(s: string)
    ensures var r := TrimEnd(s);
      && |r| <= |s| && r == s[..|r|]
      && AllSpace(s[|r|..])
      && (r != [] ==> !IsJsSpace(r[|r| - 1]))
  {
    TrimEndPrefix(s);
    TrimEndSpaces(s);
    TrimEndLast(s);
  }

  lemma {:induction false} TrimEndPrefix(s: string)
    ensures |TrimEnd(s)| <= |s| && TrimEnd(s) == s[..|TrimEnd(s)|]
  {
    if s != [] && IsJsSpace(s[|s| - 1]) {
      TrimEndPrefix(s[..|s| - 1]);
      var r := TrimEnd(s[..|s| - 1]);
      assert s[..|s| - 1][..|r|] == s[..|r|];
    }
  }

  lemma {:induction false} TrimEndSpaces(s: string)
    ensures |TrimEnd(s)| <= |s| && AllSpace(s[|TrimEnd(s)|..])
  {
    if s != [] && IsJsSpace(s[|s| - 1]) {
      var p := s[..|s| - 1];
      TrimEndSpaces(p);
      var n := |TrimEnd(p)|;
      var q := s[n..];
      forall i | 0 <= i < |q| ensures IsJsSpace(q[i]) {
        if i < |q| - 1 {
          assert q[i] == p[n..][i];
        }
      }
    }
  }

  lemma {:induction false} TrimEndLast(s: string)
    ensures TrimEnd(s) != [] ==> !IsJsSpace(TrimEnd(s)[|TrimEnd(s)| - 1])
  {
    if s != [] && IsJsSpace(s[|s| - 1]) {
      TrimEndLast(s[..|s| - 1]);
    }
  }

  /** `s.trim()` is a piece of `s` that neither starts nor ends with white space,
      and it is empty exactly when `s` is all white space. */
  lemma TrimFacts(s: string)
    ensures |Trim(s)| <= |TrimStart(s)| <= |s|
    ensures var r := Trim(s);
      && r == s[|s| - |TrimStart(s)|..|s| - |TrimStart(s)| + |r|]
      && (r != [] ==> !IsJsSpace(r[0]) && !IsJsSpace(r[|r| - 1]))
      && (r == [] <==> AllSpace(s))
  {
    var t := TrimStart(s);
    TrimStartFacts(s);
    TrimEndFacts(t);
    var r := TrimEnd(t);
    var k := |s| - |t|;
    assert r == [] ==> AllSpace(s) by {
      if r == [] {
        assert t[|r|..] == t;
        assert t == [];
        assert s[..k] == s;
      }
    }
    assert r != [] ==> !IsJsSpace(s[k]);
  }

  /** `!s.trim()` in JavaScript: the string is empty after trimming. */
  predicate IsBlank(s: string) {
    Trim(s) == []
  }

  function LowerChar(c: char): char {
    if 'A' <= c <= 'Z' then (c as int + 32) as char else c
  }

  /** `s.toLowerCase()` restricted to ASCII letters; every other character is kept. */
  function Lower(s: string): (r: string)
    ensures |r| == |s|
  {
    if s == [] then [] else [LowerChar(s[0])] + Lower(s[1..])
  }

  lemma {:induction false} LowerIndex(s: string)
    ensures forall i | 0 <= i < |s| :: Lower(s)[i] == LowerChar(s[i])
  {
    if s != [] {
      LowerIndex(s[1..]);
    }
  }

  /** Lower-casing character by character gives `t`. */
  lemma LowerPointwise(s: string, t: string)
    requires |s| == |t| && forall i | 0 <= i < |s| :: LowerChar(s[i]) == t[i]
    ensures Lower(s) == t
  {
    LowerIndex(s);
  }

  /** Lower-casing works piece by piece. */
  lemma {:induction false} LowerAppend(a: string, b: string)
    ensures Lower(a + b) == Lower(a) + Lower(b)
  {
    if a == [] {
      assert a + b == b;
    } else {
      var ab := a + b;
      assert ab[0] == a[0];
      assert ab[1..] == a[1..] + b;
      LowerAppend(a[1..], b);
    }
  }

  predicate StartsWith(s: string, prefix: string) {
    |prefix| <= |s| && s[..|prefix|] == prefix
  }

  predicate EndsWith(s: string, suffix: string) {
    |suffix| <= |s| && s[|s| - |suffix|..] == suffix
  }

  /** `sub` occurs in `s` at position `i`. */
  predicate OccursAt(s: string, sub: string, i: int) {
    0 <= i && i + |sub| <= |s| && s[i..i + |sub|] == sub
  }

  /** `s.indexOf(sub)`: the first position where `sub` occurs, or -1 when it does not occur. */
  function IndexOf(s: string, sub: string): (r: int)
    ensures r < 0 ==> r == -1
    ensures r >= 0 ==> OccursAt(s, sub, r)
    ensures forall i | 0 <= i && (r < 0 || i < r) :: !OccursAt(s, sub, i)
    decreases |s|
  {
    if |s| < |sub| then
      assert forall i | 0 <= i :: !OccursAt(s, sub, i);
      -1
    else if s[..|sub|] == sub then 0
    else
      var r := IndexOf(s[1..], sub);
      forall i | 1 <= i && OccursAt(s, sub, i) ensures OccursAt(s[1..], sub, i - 1) {
        assert s[1..][i - 1..i - 1 + |sub|] == s[i..i + |sub|];
      }
      if r < 0 then -1
      else
        assert s[1..][r..r + |sub|] == s[r + 1..r + 1 + |sub|];
        r + 1
  }

  /** A one-character separator absent from `m` is first found right after `m`. */
  lemma IndexOfAfter(m: string, c: char, rest: string)
    requires forall i | 0 <= i < |m| :: m[i] != c
    ensures IndexOf(m + [c] + rest, [c]) == |m|
  {
    var s := m + [c] + rest;
    forall i | 0 <= i < |m| ensures !OccursAt(s, [c], i) {
      assert s[i..i + 1] == [s[i]];
      assert s[i] == m[i];
    }
    assert s[|m|..|m| + 1] == [c];
    assert OccursAt(s, [c], |m|);
  }

  /** `s.includes(sub)`. */
  predicate Includes(s: string, sub: string) {
    IndexOf(s, sub) >= 0
  }

  lemma IncludesIff(s: string, sub: string)
    ensures Includes(s, sub) <==> exists i :: OccursAt(s, sub, i)
  {
    if !Includes(s, sub) {
      forall i ensures !OccursAt(s, sub, i) {
        if i >= 0 { assert !OccursAt(s, sub, i); }
      }
    }
  }

  /** A string lacking one of the characters of `sub` does not include `sub`. */
  lemma IncludesNeedsChar(s: string, sub: string, k: nat)
    requires k < |sub|
    requires forall i | 0 <= i < |s| :: s[i] != sub[k]
    ensures !Includes(s, sub)
  {
    forall i | 0 <= i ensures !OccursAt(s, sub, i) {
      if i + |sub| <= |s| {
        assert s[i..i + |sub|][k] == s[i + k];
      }
    }
  }

  /** `s.split(sep)` for a non-empty separator: the pieces between the
      left-to-right, non-overlapping occurrences of `sep`. */
  function Split(s: string, sep: string): (parts: seq<string>)
    requires sep != []
    ensures |parts| >= 1
    decreases |s|
  {
    var i := IndexOf(s, sep);
    if i < 0 then [s] else [s[..i]] + Split(s[i + |sep|..], sep)
  }

  /** `parts.join(sep)`. */
  function Join(parts: seq<string>, sep: string): string {
    if |parts| == 0 then []
    else if |parts| == 1 then parts[0]
    else parts[0] + sep + Join(parts[1..], sep)
  }

  lemma JoinCons(head: string, tail: seq<string>, sep: string)
    requires |tail| >= 1
    ensures Join([head] + tail, sep) == head + sep + Join(tail, sep)
  {
    assert ([head] + tail)[1..] == tail;
  }

  /** Joining the pieces of a split with the same separator gives back the string. */
  lemma {:induction false} JoinSplit(s: string, sep: string)
    requires sep != []
    ensures Join(Split(s, sep), sep) == s
    decreases |s|
  {
    var i := IndexOf(s, sep);
    if i >= 0 {
      JoinSplit(s[i + |sep|..], sep);
      JoinCons(s[..i], Split(s[i + |sep|..], sep), sep);
      AroundOccurrence(s, sep, i);
    }
  }

  /** A string is the text before an occurrence, the occurrence, and the rest. */
  lemma AroundOccurrence(s: string, sep: string, i: nat)
    requires OccursAt(s, sep, i)
    ensures s == s[..i] + sep + s[i + |sep|..]
  {
    assert s[i..i + |sep|] == sep;
    assert s[..i] + s[i..i + |sep|] == s[..i + |sep|];
    assert s[..i + |sep|] + s[i + |sep|..] == s;
  }

  /** No piece of a split contains the separator. */
  lemma {:induction false} SplitPiecesFree(s: string, sep: string)
    requires sep != []
    ensures forall k | 0 <= k < |Split(s, sep)| :: !Includes(Split(s, sep)[k], sep)
    decreases |s|
  {
    var i := IndexOf(s, sep);
    if i < 0 {
    } else {
      var rest := s[i + |sep|..];
      SplitPiecesFree(rest, sep);
      var head := s[..i];
      assert !Includes(head, sep) by {
        forall j | 0 <= j && OccursAt(head, sep, j) ensures false {
          assert s[j..j + |sep|] == head[j..j + |sep|];
          assert OccursAt(s, sep, j);
        }
        IncludesIff(head, sep);
      }
    }
  }

  /** How many positions of `s` hold an occurrence of `sub` (overlapping ones included). */
  function CountOccurrences(s: string, sub: string): nat
    requires sub != []
    decreases |s|
  {
    if |s| < |sub| then 0
    else (if s[..|sub|] == sub then 1 else 0) + CountOccurrences(s[1..], sub)
  }

  /** `sep` cannot overlap itself: no proper suffix of it is also a prefix of it. */
  predicate SelfDisjoint(sep: string) {
    forall k | 0 < k < |sep| :: sep[k..] != sep[..|sep| - k]
  }

  /** Dropping a prefix in which no occurrence starts keeps the count. */
  lemma {:induction false} CountSkip(s: string, sub: string, j: nat)
    requires sub != [] && j <= |s|
    requires forall p | 0 <= p < j :: !OccursAt(s, sub, p)
    ensures CountOccurrences(s, sub) == CountOccurrences(s[j..], sub)
    decreases j
  {
    if j > 0 {
      if |s| >= |sub| {
        assert !OccursAt(s, sub, 0);
        forall p | 0 <= p < j - 1 ensures !OccursAt(s[1..], sub, p) {
          if OccursAt(s[1..], sub, p) {
            assert s[1..][p..p + |sub|] == s[p + 1..p + 1 + |sub|];
            assert OccursAt(s, sub, p + 1);
          }
        }
        CountSkip(s[1..], sub, j - 1);
        assert s[1..][j - 1..] == s[j..];
      } else {
        assert |s[j..]| < |sub|;
      }
    }
  }

  /** Where a self-disjoint separator occurs, the next possible occurrence
      starts only after it. */
  lemma {:induction false} CountAtOccurrence(t: string, sep: string)
    requires sep != [] && SelfDisjoint(sep) && OccursAt(t, sep, 0)
    ensures CountOccurrences(t, sep) == 1 + CountOccurrences(t[|sep|..], sep)
  {
    assert t[..|sep|] == sep;
    forall p | 0 <= p < |sep| - 1 ensures !OccursAt(t[1..], sep, p) {
      if p + 1 + |sep| <= |t| {
        assert t[1..][p..p + |sep|] == t[p + 1..p + 1 + |sep|];
        assert sep[p + 1..] == t[p + 1..|sep|];
        assert t[p + 1..|sep|] == t[p + 1..p + 1 + |sep|][..|sep| - (p + 1)];
      }
    }
    CountSkip(t[1..], sep, |sep| - 1);
    assert t[1..][|sep| - 1..] == t[|sep|..];
  }

  /** For a separator that cannot overlap itself, `split` yields one piece more
      than there are occurrences of the separator. */
  lemma {:induction false} SplitCount(s: string, sep: string)
    requires sep != [] && SelfDisjoint(sep)
    ensures |Split(s, sep)| == 1 + CountOccurrences(s, sep)
    decreases |s|
  {
    var i := IndexOf(s, sep);
    if i < 0 {
      CountSkip(s, sep, |s|);
      assert CountOccurrences(s[|s|..], sep) == 0;
    } else {
      var rest := s[i + |sep|..];
      SplitCount(rest, sep);
      CountSkip(s, sep, i);
      assert s[i..][..|sep|] == s[i..i + |sep|];
      CountAtOccurrence(s[i..], sep);
      assert s[i..][|sep|..] == rest;
    }
  }

  /** `s.replace(/"/g, '""')`: every double quote doubled. */
  function DoubleQuotes(s: string): string {
    if s == [] then []
    else (if s[0] == '"' then "\"\"" else [s[0]]) + DoubleQuotes(s[1..])
  }

  function DigitChar(d: nat): (c: char)
    requires d < 10
    ensures '0' <= c <= '9' && c as int - '0' as int == d
  {
    (d + '0' as int) as char
  }

  predicate IsDigit(c: char) {
    '0' <= c <= '9'
  }

  predicate AllDigits(s: string) {
    forall i | 0 <= i < |s| :: IsDigit(s[i])
  }

  /** Decimal rendering of a natural number, without leading zeros. */
  function Decimal(n: nat): (r: string)
    ensures |r| >= 1 && AllDigits(r)
    ensures |r| > 1 ==> r[0] != '0'
  {
    if n < 10 then [DigitChar(n)] else Decimal(n / 10) + [DigitChar(n % 10)]
  }

  /** The value of a string of decimal digits. */
  function DecimalValue(s: string): nat
    requires AllDigits(s)
  {
    if s == [] then 0
    else 10 * DecimalValue(s[..|s| - 1]) + (s[|s| - 1] as int - '0' as int)
  }

  /** Rendering a number and reading it back gives the number. */
  lemma {:induction false} DecimalRoundTrip(n: nat)
    ensures DecimalValue(Decimal(n)) == n
  {
    if n >= 10 {
      DecimalRoundTrip(n / 10);
      var r := Decimal(n);
      assert r[..|r| - 1] == Decimal(n / 10);
    }
  }

  /** `String(i)` for an integer-valued number, as `toString` renders it. */
  function IntString(i: int): string {
    if i < 0 then "-" + Decimal(-i) else Decimal(i)
  }

  /** `s.padStart(len, c)`. */
  function PadStart(s: string, len: nat, c: char): (r: string)
    ensures |s| >= len ==> r == s
    ensures |s| < len ==> |r| == len && r[len - |s|..] == s
    ensures forall i | 0 <= i < |r| - |s| :: r[i] == c
  {
    if |s| >= len then s else seq(len - |s|, _ => c) + s
  }

  /** `s.length`: the number of UTF-16 code units, two for a character beyond
      the Basic Multilingual Plane. */
  function Utf16Length(s: string): (n: nat)
    ensures |s| <= n <= 2 * |s|
  {
    if s == [] then 0 else (if s[0] as int > 0xFFFF then 2 else 1) + Utf16Length(s[1..])
  }

  /** Within the Basic Multilingual Plane the length is the number of characters. */
  lemma {:induction false} Utf16LengthBmp(s: string)
    requires forall i | 0 <= i < |s| :: s[i] as int <= 0xFFFF
    ensures Utf16Length(s) == |s|
  {
    if s != [] {
      Utf16LengthBmp(s[1..]);
    }
  }

  // ----- Numbers -----

  /** A JavaScript number: NaN or a finite value. */
  datatype JsNumber = NaN | Num(value: real)

  /** `Number.isInteger`. */
  predicate IsInteger(x: JsNumber) {
    x.Num? && x.value == x.value.Floor as real
  }

  /** `Math.trunc`. */
  function Trunc(x: real): int {
    if x >= 0.0 then x.Floor else -((-x).Floor)
  }

  /** JavaScript's `%` on numbers: the remainder takes the sign of the dividend. */
  function JsRem(x: real, m: real): real
    requires m != 0.0
  {
    x - m * (Trunc(x / m) as real)
  }

  /** `s.slice(start, end)`: a negative index counts from the end, and an empty
      range gives the empty string. Indices count characters here. */
  function Slice(s: string, start: int, end: int): (r: string)
    ensures |r| <= |s|
  {
    var from := if start < 0 then (if |s| + start < 0 then 0 else |s| + start)
                else (if start > |s| then |s| else start);
    var to := if end < 0 then (if |s| + end < 0 then 0 else |s| + end)
              else (if end > |s| then |s| else end);
    if from >= to then [] else s[from..to]
  }
}
