/** Numbers as text, and text split at a separator. */
module Text {
  import opened Prelude

  /** The two radixes in use: decimal and hexadecimal. */
  type Radix = b: int | b == 10 || b == 16 witness 10

  function DigitChar(d: nat): char
    requires d < 16
  {
    if d < 10 then (48 + d) as char else (55 + d) as char
  }

  /** The value of a digit, letters in either case. */
  function DigitValue(c: char): Option<nat> {
    if '0' <= c <= '9' then Some(c as int - 48)
    else if 'A' <= c <= 'F' then Some(c as int - 55)
    else if 'a' <= c <= 'f' then Some(c as int - 87)
    else None
  }

  predicate IsDigit(c: char, b: Radix) {
    DigitValue(c).Some? && DigitValue(c).value < b
  }

  predicate IsNumeral(s: string, b: Radix) {
    s != "" && forall i :: 0 <= i < |s| ==> IsDigit(s[i], b)
  }

  /** The number a run of digits stands for. */
  function NumeralValue(s: string, b: Radix): nat
    requires forall i :: 0 <= i < |s| ==> IsDigit(s[i], b)
  {
    if s == "" then 0 else
      var last := s[|s| - 1];
      assert IsDigit(last, b);
      b * NumeralValue(s[..|s| - 1], b) + DigitValue(last).value
  }

  lemma DigitIs(d: nat, b: Radix)
    requires d < b
    ensures IsDigit(DigitChar(d), b)
  {
  }

  /** `{:X}` and `{}`: the digits of a number, without leading zeros. */
  function Numeral(n: nat, b: Radix): (s: string)
    ensures IsNumeral(s, b)
    decreases n
  {
    DigitIs(n % b, b);
    if n < b then [DigitChar(n)] else Numeral(n / b, b) + [DigitChar(n % b)]
  }

  function Zeros(n: nat): (s: string)
    ensures |s| == n && forall i :: 0 <= i < n ==> s[i] == '0'
  {
    seq(n, _ => '0')
  }

  /** `{:0wX}`: at least `w` digits. */
  function Padded(n: nat, w: nat, b: Radix): (s: string)
    ensures IsNumeral(s, b)
  {
    var s := Numeral(n, b);
    Zeros(if |s| < w then w - |s| else 0) + s
  }

  function Hex(n: nat, w: nat): string {
    Padded(n, w, 16)
  }

  function Dec(n: nat): string {
    Numeral(n, 10)
  }

  lemma {:induction false} ValueOfNumeral(n: nat, b: Radix)
    ensures NumeralValue(Numeral(n, b), b) == n
    decreases n
  {
    var s := Numeral(n, b);
    if n < b {
      assert s[..|s| - 1] == "";
    } else {
      ValueOfNumeral(n / b, b);
      assert s[..|s| - 1] == Numeral(n / b, b);
    }
  }

  lemma {:induction false} ValueOfPadded(zeros: nat, s: string, b: Radix)
    requires IsNumeral(s, b)
    ensures IsNumeral(Zeros(zeros) + s, b)
    ensures NumeralValue(Zeros(zeros) + s, b) == NumeralValue(s, b)
    decreases |s|
  {
    var z := Zeros(zeros) + s;
    assert z[..|z| - 1] == Zeros(zeros) + s[..|s| - 1];
    if |s| == 1 {
      ValueOfZeros(zeros, b);
      assert z[..|z| - 1] == Zeros(zeros);
      assert s[..|s| - 1] == "";
    } else {
      ValueOfPadded(zeros, s[..|s| - 1], b);
    }
  }

  lemma {:induction false} ValueOfZeros(n: nat, b: Radix)
    ensures NumeralValue(Zeros(n), b) == 0
  {
    if n > 0 {
      assert Zeros(n)[..n - 1] == Zeros(n - 1);
      ValueOfZeros(n - 1, b);
    }
  }

  /** Reading a formatted number back gives the number, whatever its padding. */
  lemma FormattedValue(n: nat, w: nat, b: Radix)
    ensures NumeralValue(Padded(n, w, b), b) == n
    ensures |Padded(n, w, b)| >= w
  {
    var s := Numeral(n, b);
    ValueOfNumeral(n, b);
    ValueOfPadded(if |s| < w then w - |s| else 0, s, b);
  }

  /** `from_str_radix(s, 16)` into an unsigned type with this maximum. */
  function FromHex(s: string, max: nat): (r: Option<nat>)
    ensures r.Some? ==> r.value <= max
  {
    var digits := if |s| > 1 && s[0] == '+' then s[1..] else s;
    if IsNumeral(digits, 16) && NumeralValue(digits, 16) <= max then Some(NumeralValue(digits, 16)) else None
  }

  /** A formatted number reads back, when it fits. */
  lemma HexReadsBack(n: nat, w: nat, max: nat)
    ensures FromHex(Hex(n, w), max) == if n <= max then Some(n) else None
  {
    FormattedValue(n, w, 16);
    assert IsDigit(Hex(n, w)[0], 16);
  }

  // ----- splitting and joining

  predicate Free(s: string, sep: char) {
    sep !in s
  }

  lemma NumeralFree(s: string, b: Radix)
    requires IsNumeral(s, b)
    ensures Free(s, ':')
  {
  }

  /** `str::split`: the pieces between separators, at least one. */
  function Split(s: string, sep: char): (r: seq<string>)
    ensures |r| >= 1
  {
    if s == "" then [""]
    else
      var rest := Split(s[1..], sep);
      if s[0] == sep then [""] + rest else [[s[0]] + rest[0]] + rest[1..]
  }

  /** `join`: the pieces with a separator between each two. */
  function Join(parts: seq<string>, sep: char): string {
    if parts == [] then ""
    else if |parts| == 1 then parts[0]
    else parts[0] + [sep] + Join(parts[1..], sep)
  }

  lemma {:induction false} SplitPiecesFree(s: string, sep: char)
    ensures forall i :: 0 <= i < |Split(s, sep)| ==> Free(Split(s, sep)[i], sep)
  {
    if s != "" {
      SplitPiecesFree(s[1..], sep);
      var rest := Split(s[1..], sep);
      assert Free(rest[0], sep);
    }
  }

  lemma {:induction false} JoinOfSplit(s: string, sep: char)
    ensures Join(Split(s, sep), sep) == s
  {
    if s != "" {
      JoinOfSplit(s[1..], sep);
      var rest := Split(s[1..], sep);
      if s[0] == sep {
        assert Split(s, sep)[1..] == rest;
      } else {
        JoinOfLonger(s[0], rest, sep);
      }
      assert s == [s[0]] + s[1..];
    }
  }

  lemma JoinOfLonger(c: char, parts: seq<string>, sep: char)
    requires parts != []
    ensures Join([[c] + parts[0]] + parts[1..], sep) == [c] + Join(parts, sep)
  {
  }

  lemma {:induction false} SplitOfPiece(p: string, tail: string, sep: char)
    requires Free(p, sep)
    ensures Split(p + [sep] + tail, sep) == [p] + Split(tail, sep)
  {
    var s := p + [sep] + tail;
    if p == "" {
      assert s[1..] == tail;
    } else {
      assert s[1..] == p[1..] + [sep] + tail;
      SplitOfPiece(p[1..], tail, sep);
      assert [s[0]] + p[1..] == p;
    }
  }

  lemma {:induction false} SplitOfFree(p: string, sep: char)
    requires Free(p, sep)
    ensures Split(p, sep) == [p]
  {
    if p != "" {
      SplitOfFree(p[1..], sep);
      assert [p[0]] + p[1..] == p;
    }
  }

  /** Joined pieces split again into the same pieces. */
  lemma {:induction false} SplitOfJoin(parts: seq<string>, sep: char)
    requires parts != []
    requires forall i :: 0 <= i < |parts| ==> Free(parts[i], sep)
    ensures Split(Join(parts, sep), sep) == parts
  {
    if |parts| == 1 {
      SplitOfFree(parts[0], sep);
    } else {
      SplitOfJoin(parts[1..], sep);
      SplitOfPiece(parts[0], Join(parts[1..], sep), sep);
      assert parts == [parts[0]] + parts[1..];
    }
  }

  // ----- trimming and case

  /** Unicode white space. */
  predicate IsSpace(c: char) {
    var n := c as int;
    0x09 <= n <= 0x0D || n == 0x20 || n == 0x85 || n == 0xA0 || n == 0x1680 || 0x2000 <= n <= 0x200A ||
    n == 0x2028 || n == 0x2029 || n == 0x202F || n == 0x205F || n == 0x3000
  }

  function TrimStart(s: string): string {
    if s != "" && IsSpace(s[0]) then TrimStart(s[1..]) else s
  }

  function TrimEnd(s: string): string {
    if s != "" && IsSpace(s[|s| - 1]) then TrimEnd(s[..|s| - 1]) else s
  }

  function Trim(s: string): string {
    TrimStart(TrimEnd(s))
  }

  function LowerChar(c: char): char {
    if 'A' <= c <= 'Z' then (c as int + 32) as char else c
  }

  /** ASCII letters in lower case. */
  function LowerCase(s: string): (r: string)
    ensures |r| == |s| && forall i :: 0 <= i < |s| ==> r[i] == LowerChar(s[i])
  {
    seq(|s|, i requires 0 <= i < |s| => LowerChar(s[i]))
  }

  lemma {:induction false} TrimEndConcat(a: string, b: string)
    ensures TrimEnd(a + b) == if TrimEnd(b) == "" then TrimEnd(a) else a + TrimEnd(b)
  {
    if b == "" {
      assert a + b == a;
    } else if IsSpace(b[|b| - 1]) {
      assert (a + b)[..|a + b| - 1] == a + b[..|b| - 1];
      TrimEndConcat(a, b[..|b| - 1]);
    }
  }

  lemma {:induction false} TrimEndTwice(s: string)
    ensures TrimEnd(TrimEnd(s)) == TrimEnd(s)
    ensures |TrimEnd(s)| <= |s| && (forall c :: c in TrimEnd(s) ==> c in s)
    ensures TrimEnd(s) == s <==> s == "" || !IsSpace(s[|s| - 1])
    ensures |TrimEnd(s)| == |s| ==> TrimEnd(s) == s
  {
    if s != "" && IsSpace(s[|s| - 1]) {
      TrimEndTwice(s[..|s| - 1]);
    }
  }

  lemma {:induction false} TrimStartShortens(s: string)
    ensures |TrimStart(s)| <= |s| && (forall c :: c in TrimStart(s) ==> c in s)
    ensures TrimStart(s) == s <==> s == "" || !IsSpace(s[0])
    ensures |TrimStart(s)| == |s| ==> TrimStart(s) == s
  {
    if s != "" && IsSpace(s[0]) {
      TrimStartShortens(s[1..]);
    }
  }

  predicate EndsWith(s: string, P: char -> bool) {
    s != "" && (P(s[0]) || P(s[|s| - 1]))
  }

  lemma TrimShortens(s: string)
    ensures |Trim(s)| <= |s| && (forall c :: c in Trim(s) ==> c in s)
    ensures Trim(s) == s <==> !EndsWith(s, IsSpace)
    ensures |Trim(s)| == |s| ==> Trim(s) == s
  {
    TrimEndTwice(s);
    TrimStartShortens(TrimEnd(s));
  }

  // ----- the order of keys

  /** The order of a map's keys. */
  predicate Before(a: string, b: string) {
    if b == "" then false
    else if a == "" then true
    else if a[0] != b[0] then a[0] < b[0]
    else Before(a[1..], b[1..])
  }

  lemma {:induction false} OneComesFirst(a: string, b: string)
    ensures a == b || Before(a, b) || Before(b, a)
    ensures !(Before(a, b) && Before(b, a)) && !Before(a, a)
  {
    if a != "" && b != "" && a[0] == b[0] {
      OneComesFirst(a[1..], b[1..]);
      assert a == [a[0]] + a[1..] && b == [b[0]] + b[1..];
    }
    if a != "" {
      OneComesFirst(a[1..], a[1..]);
    }
  }

  lemma {:induction false} ComesFirstOfThree(a: string, b: string, c: string)
    requires Before(a, b) && Before(b, c)
    ensures Before(a, c)
  {
    if a != "" && b != "" && c != "" && a[0] == b[0] == c[0] {
      ComesFirstOfThree(a[1..], b[1..], c[1..]);
    }
  }

  /** Some keys have a first one. */
  lemma {:induction false} Least(keys: set<string>) returns (first: string)
    requires keys != {}
    ensures first in keys && forall k :: k in keys ==> k == first || Before(first, k)
    decreases |keys|
  {
    var k :| k in keys;
    if keys == {k} {
      first := k;
    } else {
      var rest := keys - {k};
      assert keys == rest + {k};
      var least := Least(rest);
      OneComesFirst(k, least);
      first := if Before(k, least) then k else least;
      forall q | q in keys
        ensures q == first || Before(first, q)
      {
        if Before(k, least) && q in rest && q != least {
          ComesFirstOfThree(k, least, q);
        }
      }
    }
  }
}
