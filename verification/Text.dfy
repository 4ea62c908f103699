/** The few string operations the wire formats rest on. A string is a sequence of bytes written as characters. */
module Text {
  import opened Domain

  // ---------------------------------------------------------------- white space

  predicate IsSpace(c: char) {
    c in {' ', '\t', '\n', '\r', '\U{0B}', '\U{0C}'}
  }

  /** Two bytes that make a white space character outside ASCII. */
  predicate Space2(a: char, b: char) {
    a == '\U{C2}' && (b == '\U{85}' || b == '\U{A0}')
  }

  /** Three bytes that make one. */
  predicate Space3(a: char, b: char, c: char) {
    || (a == '\U{E1}' && b == '\U{9A}' && c == '\U{80}')
    || (a == '\U{E2}' && b == '\U{80}'
        && ('\U{80}' <= c <= '\U{8A}' || c == '\U{A8}' || c == '\U{A9}' || c == '\U{AF}'))
    || (a == '\U{E2}' && b == '\U{81}' && c == '\U{9F}')
    || (a == '\U{E3}' && b == '\U{80}' && c == '\U{80}')
  }

  /** The code points outside ASCII that count as white space. */
  predicate UnicodeSpace(cp: int) {
    || cp == 0x85 || cp == 0xA0 || cp == 0x1680 || 0x2000 <= cp <= 0x200A
    || cp == 0x2028 || cp == 0x2029 || cp == 0x202F || cp == 0x205F || cp == 0x3000
  }

  lemma AsciiSpaces(c: char)
    ensures IsSpace(c) <==> 9 <= c as int <= 13 || c as int == 32
  {
  }

  /** The two-byte characters that are white space, in UTF-8. */
  lemma TwoByteSpaces(cp: int)
    requires 0x80 <= cp < 0x800
    ensures Space2((0xC0 + cp / 64) as char, (0x80 + cp % 64) as char) <==> UnicodeSpace(cp)
  {
  }

  /** The three-byte ones. */
  lemma ThreeByteSpaces(cp: int)
    requires 0x800 <= cp < 0x10000
    ensures Space3((0xE0 + cp / 4096) as char, (0x80 + cp / 64 % 64) as char, (0x80 + cp % 64) as char)
       <==> UnicodeSpace(cp)
  {
  }

  predicate Blank(s: string) {
    forall i :: 0 <= i < |s| ==> IsSpace(s[i])
  }

  /** How many bytes the white space character takes that a string begins with; none, if it does not. */
  function LeadSpace(s: string): (n: nat)
    ensures n <= |s|
  {
    if |s| >= 1 && IsSpace(s[0]) then 1
    else if |s| >= 2 && Space2(s[0], s[1]) then 2
    else if |s| >= 3 && Space3(s[0], s[1], s[2]) then 3
    else 0
  }

  /** The same for the end of a string. */
  function TailSpace(s: string): (n: nat)
    ensures n <= |s|
  {
    if |s| >= 1 && IsSpace(s[|s| - 1]) then 1
    else if |s| >= 2 && Space2(s[|s| - 2], s[|s| - 1]) then 2
    else if |s| >= 3 && Space3(s[|s| - 3], s[|s| - 2], s[|s| - 1]) then 3
    else 0
  }

  function TrimLeft(s: string): string {
    if LeadSpace(s) > 0 then TrimLeft(s[LeadSpace(s)..]) else s
  }

  function TrimRight(s: string): string {
    if TailSpace(s) > 0 then TrimRight(s[..|s| - TailSpace(s)]) else s
  }

  function Trim(s: string): string {
    TrimRight(TrimLeft(s))
  }

  /** No white space at either end. */
  predicate Bare(s: string) {
    LeadSpace(s) == 0 && TailSpace(s) == 0
  }

  lemma {:induction false} TrimLeftPad(pad: string, s: string)
    requires Blank(pad) && LeadSpace(s) == 0
    ensures TrimLeft(pad + s) == s
  {
    if pad == [] {
      assert pad + s == s;
    } else {
      assert (pad + s)[1..] == pad[1..] + s;
      TrimLeftPad(pad[1..], s);
    }
  }

  lemma {:induction false} TrimRightPad(s: string, pad: string)
    requires Blank(pad) && TailSpace(s) == 0
    ensures TrimRight(s + pad) == s
  {
    if pad == [] {
      assert s + pad == s;
    } else {
      var n := |pad| - 1;
      assert (s + pad)[..|s| + n] == s + pad[..n];
      TrimRightPad(s, pad[..n]);
    }
  }

  /** ASCII padding cannot complete a character that a string leaves unfinished. */
  lemma LeadSpaceThenPad(s: string, pad: string)
    requires s != [] && LeadSpace(s) == 0 && Blank(pad)
    ensures LeadSpace(s + pad) == 0
  {
    var t := s + pad;
    assert forall i :: 0 <= i < |t| ==> t[i] == if i < |s| then s[i] else pad[i - |s|];
  }

  /** Trimming removes exactly the padding around a bare string. */
  lemma TrimPadded(left: string, s: string, right: string)
    requires Blank(left) && Blank(right) && Bare(s)
    ensures Trim(left + s + right) == s
  {
    if s == [] {
      assert left + s + right == (left + right) + [];
      TrimLeftPad(left + right, []);
    } else {
      assert left + s + right == left + (s + right);
      LeadSpaceThenPad(s, right);
      TrimLeftPad(left, s + right);
      TrimRightPad(s, right);
    }
  }

  // ---------------------------------------------------------------- splitting

  function SplitOn(s: string, sep: char): (r: seq<string>)
    ensures |r| > 0
  {
    if s == [] then [[]]
    else
      var rest := SplitOn(s[1..], sep);
      if s[0] == sep then [[]] + rest else [[s[0]] + rest[0]] + rest[1..]
  }

  /** A separator ends the first piece. */
  lemma {:induction false} SplitCons(a: string, sep: char, b: string)
    requires sep !in a
    ensures SplitOn(a + [sep] + b, sep) == [a] + SplitOn(b, sep)
  {
    if a == [] {
      assert a + [sep] + b == [sep] + b;
    } else {
      assert (a + [sep] + b)[1..] == a[1..] + [sep] + b;
      SplitCons(a[1..], sep, b);
      assert [a[0]] + a[1..] == a;
    }
  }

  lemma {:induction false} SplitNone(a: string, sep: char)
    requires sep !in a
    ensures SplitOn(a, sep) == [a]
  {
    if a == [] {
    } else {
      SplitNone(a[1..], sep);
      assert [a[0]] + a[1..] == a;
    }
  }

  /** The position of the first occurrence, or the length. */
  function IndexOf(s: string, c: char): (n: nat)
    ensures n <= |s|
    ensures n < |s| ==> s[n] == c
    ensures c !in s[..n]
  {
    if s == [] || s[0] == c then 0
    else
      var n := IndexOf(s[1..], c);
      assert s[..n + 1] == [s[0]] + s[1..][..n];
      n + 1
  }

  lemma {:induction false} IndexOfAfter(a: string, c: char, b: string)
    requires c !in a
    ensures IndexOf(a + [c] + b, c) == |a|
  {
    if a == [] {
      assert a + [c] + b == [c] + b;
    } else {
      assert (a + [c] + b)[1..] == a[1..] + [c] + b;
      IndexOfAfter(a[1..], c, b);
    }
  }

  /** The lines of a text, each with its line break if it has one. */
  function Lines(s: string): (r: seq<string>)
    decreases |s|
  {
    if s == [] then []
    else
      var n := IndexOf(s, '\n');
      if n == |s| then [s] else [s[..n + 1]] + Lines(s[n + 1..])
  }

  lemma LinesCons(line: string, rest: string)
    requires '\n' !in line
    ensures Lines(line + "\n" + rest) == [line + "\n"] + Lines(rest)
  {
    var s := line + "\n" + rest;
    IndexOfAfter(line, '\n', rest);
    assert "\n" == ['\n'];
    assert s[..|line| + 1] == line + "\n" && s[|line| + 1..] == rest;
  }

  lemma LinesLine(line: string, rest: string)
    requires IsLine(line)
    ensures Lines(line + rest) == [line] + Lines(rest)
  {
    var bare := line[..|line| - 1];
    assert line == bare + "\n";
    LinesCons(bare, rest);
  }

  function Concat(parts: seq<string>): string {
    if parts == [] then [] else parts[0] + Concat(parts[1..])
  }

  /** Lines that each end in their only line break are the lines of their concatenation. */
  lemma {:induction false} LinesOfConcat(lines: seq<string>, rest: string)
    requires forall i :: 0 <= i < |lines| ==> IsLine(lines[i])
    ensures Lines(Concat(lines) + rest) == lines + Lines(rest)
  {
    if lines == [] {
      assert Concat(lines) + rest == rest;
    } else {
      calc {
        Lines(Concat(lines) + rest);
        { assert Concat(lines) + rest == lines[0] + (Concat(lines[1..]) + rest); }
        Lines(lines[0] + (Concat(lines[1..]) + rest));
        { assert IsLine(lines[0]); LinesLine(lines[0], Concat(lines[1..]) + rest); }
        [lines[0]] + Lines(Concat(lines[1..]) + rest);
        { LinesOfConcat(lines[1..], rest); }
        [lines[0]] + (lines[1..] + Lines(rest));
        { assert lines == [lines[0]] + lines[1..]; }
        lines + Lines(rest);
      }
    }
  }

  predicate IsLine(l: string) {
    |l| > 0 && l[|l| - 1] == '\n' && '\n' !in l[..|l| - 1]
  }

  /** The lines put together are the text; every line but the last ends in its only break. */
  lemma {:induction false} LinesOfAnyText(s: string)
    ensures Concat(Lines(s)) == s
    ensures forall i :: 0 <= i < |Lines(s)| - 1 ==> IsLine(Lines(s)[i])
    ensures s != "" ==> |Lines(s)| > 0 && LastLine(Lines(s)[|Lines(s)| - 1])
    decreases |s|
  {
    if s == [] {
    } else {
      var n := IndexOf(s, '\n');
      if n == |s| {
        assert s[..n] == s;
        assert [s][1..] == [] && Concat([]) == [];
      } else {
        LinesOfAnyText(s[n + 1..]);
        assert s[..n + 1][..n] == s[..n];
        assert s == s[..n + 1] + s[n + 1..];
      }
    }
  }

  /** A line with its break, or some text without one. */
  predicate LastLine(l: string) {
    IsLine(l) || (l != "" && '\n' !in l)
  }

  // ---------------------------------------------------------------- numbers

  const MIN_INT32 := -0x8000_0000
  const MAX_INT32 := 0x7fff_ffff

  predicate IsDigit(c: char) {
    '0' <= c <= '9'
  }

  predicate AllDigits(s: string) {
    forall i :: 0 <= i < |s| ==> IsDigit(s[i])
  }

  function DigitOf(d: nat): (c: char)
    requires d < 10
    ensures IsDigit(c) && ValueOf(c) == d
  {
    ('0' as int + d) as char
  }

  function ValueOf(c: char): nat
    requires IsDigit(c)
  {
    c as int - '0' as int
  }

  /** Decimal digits of a number, without leading zeros. */
  function Digits(n: nat): (s: string)
    ensures |s| > 0 && AllDigits(s)
  {
    if n < 10 then [DigitOf(n)] else Digits(n / 10) + [DigitOf(n % 10)]
  }

  function Number(s: string): nat
    requires AllDigits(s)
  {
    if s == [] then 0 else Number(s[..|s| - 1]) * 10 + ValueOf(s[|s| - 1])
  }

  lemma {:induction false} NumberOfDigits(n: nat)
    ensures Number(Digits(n)) == n
  {
    if n >= 10 {
      NumberOfDigits(n / 10);
      assert Digits(n)[..|Digits(n)| - 1] == Digits(n / 10);
    } else {
      assert Digits(n)[..0] == [];
      assert Number([]) == 0;
    }
  }

  /** Signed decimal form. */
  function Decimal(n: int): string {
    if n < 0 then "-" + Digits(-n) else Digits(n)
  }

  /** The 32-bit base-10 integer reader: an optional sign, digits only, and the range check. */
  function ParseInt32(s: string): (r: Option<int>)
    ensures r.Some? ==> MIN_INT32 <= r.value <= MAX_INT32
  {
    var signed := s != [] && (s[0] == '+' || s[0] == '-');
    var body := if signed then s[1..] else s;
    if body == [] || !AllDigits(body) then None
    else
      var m: int := Number(body);
      var n := if signed && s[0] == '-' then -m else m;
      if MIN_INT32 <= n <= MAX_INT32 then Some(n) else None
  }

  /** Every 32-bit number survives printing and reading. */
  lemma ParseDecimal(n: int)
    requires MIN_INT32 <= n <= MAX_INT32
    ensures ParseInt32(Decimal(n)) == Some(n)
  {
    if n < 0 {
      NumberOfDigits(-n);
      assert Decimal(n)[0] == '-' && Decimal(n)[1..] == Digits(-n);
    } else {
      NumberOfDigits(n);
      assert IsDigit(Decimal(n)[0]) && !IsDigit('-') && !IsDigit('+');
    }
  }

  // ---------------------------------------------------------------- what the reader accepts

  function Zeros(k: nat): (s: string)
    ensures |s| == k && AllDigits(s)
  {
    seq(k, _ => '0')
  }

  lemma {:induction false} NumberOfPadded(k: nat, n: nat)
    ensures Number(Zeros(k) + Digits(n)) == n
  {
    var s := Zeros(k) + Digits(n);
    var front := s[..|s| - 1];
    if n >= 10 {
      NumberOfPadded(k, n / 10);
      assert front == Zeros(k) + Digits(n / 10);
    } else {
      assert front == Zeros(k);
      NumberOfZeros(k);
    }
  }

  lemma {:induction false} NumberOfZeros(k: nat)
    ensures Number(Zeros(k)) == 0
  {
    if k == 0 {
    } else {
      NumberOfZeros(k - 1);
      assert Zeros(k)[..k - 1] == Zeros(k - 1);
    }
  }

  /** Digits are zeros followed by the decimal form of their number. */
  lemma {:induction false} DigitsArePadded(s: string) returns (k: nat)
    requires s != [] && AllDigits(s)
    ensures s == Zeros(k) + Digits(Number(s))
  {
    var n := |s| - 1;
    var front, d := s[..n], s[n];
    assert s == front + [d];
    if n == 0 {
      k := 0;
      assert Number(front) == 0;
    } else {
      k := DigitsArePadded(front);
      if Number(front) == 0 {
        k := k + 1;
        assert front == Zeros(k);
      } else {
        assert Digits(Number(s)) == Digits(Number(front)) + [d];
      }
    }
  }

  /** A sign, zeros and the decimal digits of a number. */
  ghost predicate Spells(s: string, n: int) {
    exists k: nat :: SpellsWith(s, n, k)
  }

  predicate SpellsWith(s: string, n: int, k: nat) {
    if n < 0 then s == "-" + (Zeros(k) + Digits(-n))
    else
      || s == Zeros(k) + Digits(n)
      || s == "+" + (Zeros(k) + Digits(n))
      || (n == 0 && s == "-" + (Zeros(k) + Digits(0)))
  }

  lemma DigitsSpell(s: string, n: int)
    requires s != [] && AllDigits(s) && Number(s) == n
    ensures Spells(s, n) && Spells("+" + s, n) && Spells("-" + s, -n)
  {
    var k := DigitsArePadded(s);
    assert SpellsWith(s, n, k) && SpellsWith("+" + s, n, k) && SpellsWith("-" + s, -n, k);
  }

  function InRange(n: int): Option<int> {
    if -2147483648 <= n <= 2147483647 then Some(n) else None
  }

  lemma DigitsParse(body: string, n: int)
    requires body != [] && AllDigits(body) && Number(body) == n
    ensures ParseInt32(body) == InRange(n)
    ensures ParseInt32("+" + body) == InRange(n) && ParseInt32("-" + body) == InRange(-n)
  {
    assert IsDigit(body[0]) && !IsDigit('-') && !IsDigit('+');
    assert ("+" + body)[0] == '+' && ("+" + body)[1..] == body;
    assert ("-" + body)[0] == '-' && ("-" + body)[1..] == body;
  }

  lemma SpelledParses(s: string, n: int, k: nat)
    requires SpellsWith(s, n, k)
    ensures ParseInt32(s) == InRange(n)
  {
    var m: nat := if n < 0 then -n else n;
    NumberOfPadded(k, m);
    DigitsParse(Zeros(k) + Digits(m), m);
  }

  lemma SignedIsSpelled(sign: char, body: string, n: int)
    requires (sign == '+' || sign == '-') && ParseInt32([sign] + body) == Some(n)
    ensures Spells([sign] + body, n)
  {
    var s := [sign] + body;
    assert s[1..] == body;
    DigitsSpell(body, Number(body));
    assert s == "+" + body || s == "-" + body;
  }

  lemma ParsedIsSpelled(s: string, n: int)
    requires ParseInt32(s) == Some(n)
    ensures Spells(s, n)
  {
    if s[0] == '+' || s[0] == '-' {
      assert s == [s[0]] + s[1..];
      SignedIsSpelled(s[0], s[1..], n);
    } else {
      DigitsSpell(s, Number(s));
    }
  }

  /** What the reader accepts: exactly the spellings of the numbers in the 32-bit range. */
  lemma ParseInt32Iff(s: string, n: int)
    ensures ParseInt32(s) == Some(n) <==> Spells(s, n) && -2147483648 <= n <= 2147483647
  {
    if ParseInt32(s) == Some(n) {
      ParsedIsSpelled(s, n);
    } else if k: nat :| SpellsWith(s, n, k) {
      SpelledParses(s, n, k);
    }
  }
}
