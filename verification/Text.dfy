/** The string operations of Go's standard library that the agent relies on, and
    decimal printing with a reader that inverts it. */
module Text {
  import opened Basics

  predicate HasPrefix(s: string, prefix: string) {
    prefix <= s
  }

  function TrimPrefix(s: string, prefix: string): string {
    if HasPrefix(s, prefix) then s[|prefix|..] else s
  }

  /** Some occurrence of part lies inside s. */
  predicate Contains(s: string, part: string) {
    exists i | 0 <= i <= |s| :: part <= s[i..]
  }

  /** unicode.IsSpace: the characters with the White_Space property. */
  predicate IsSpace(c: char) {
    || c in "\t\n\U{0b}\U{0c}\r "
    || c == '\U{85}' || c == '\U{a0}' || c == '\U{1680}'
    || '\U{2000}' <= c <= '\U{200a}'
    || c == '\U{2028}' || c == '\U{2029}' || c == '\U{202f}' || c == '\U{205f}' || c == '\U{3000}'
  }

  /** The characters that Go takes for space, by code point. */
  lemma SpaceIs(c: char)
    ensures IsSpace(c) <==>
      || 9 <= c as int <= 13 || c as int == 32 || c as int == 0x85 || c as int == 0xa0 || c as int == 0x1680
      || 0x2000 <= c as int <= 0x200a || c as int in [0x2028, 0x2029, 0x202f, 0x205f, 0x3000]
  {
  }

  lemma HasPrefixIff(s: string, prefix: string)
    ensures HasPrefix(s, prefix) <==> exists rest :: s == prefix + rest
  {
    if HasPrefix(s, prefix) {
      assert s == prefix + s[|prefix|..];
    }
  }

  /** A prefix is taken off once, and only if it is there. */
  lemma TrimPrefixOf(s: string, prefix: string, rest: string)
    ensures TrimPrefix(prefix + rest, prefix) == rest
    ensures (forall r :: s != prefix + r) ==> TrimPrefix(s, prefix) == s
  {
    if HasPrefix(s, prefix) {
      assert s == prefix + s[|prefix|..];
    }
  }

  /** A part is contained where it stands between two others, and nowhere else. */
  lemma ContainsIff(s: string, part: string)
    ensures Contains(s, part) <==> exists before, after :: s == before + part + after
  {
    if i :| 0 <= i <= |s| && part <= s[i..] {
      assert s == s[..i] + part + s[i + |part|..];
    }
    if before, after :| s == before + part + after {
      assert part <= s[|before|..];
    }
  }

  function TrimLeft(s: string, drop: char -> bool): string {
    if s != [] && drop(s[0]) then TrimLeft(s[1..], drop) else s
  }

  function TrimRight(s: string, drop: char -> bool): string {
    if s != [] && drop(s[|s| - 1]) then TrimRight(s[..|s| - 1], drop) else s
  }

  function TrimSpace(s: string): string {
    TrimRight(TrimLeft(s, IsSpace), IsSpace)
  }

  lemma {:induction false} TrimLeftOf(before: string, s: string, drop: char -> bool)
    requires forall c | c in before :: drop(c)
    requires s == "" || !drop(s[0])
    ensures TrimLeft(before + s, drop) == s
  {
    if before == "" {
      assert before + s == s;
    } else {
      assert (before + s)[1..] == before[1..] + s;
      TrimLeftOf(before[1..], s, drop);
    }
  }

  lemma {:induction false} TrimRightOf(s: string, after: string, drop: char -> bool)
    requires forall c | c in after :: drop(c)
    requires s == "" || !drop(s[|s| - 1])
    ensures TrimRight(s + after, drop) == s
  {
    if after == "" {
      assert s + after == s;
    } else {
      var n := |after| - 1;
      assert (s + after)[..|s + after| - 1] == s + after[..n];
      TrimRightOf(s, after[..n], drop);
    }
  }

  /** Trimming takes off exactly the surrounding space. */
  lemma TrimSpaceOf(before: string, core: string, after: string)
    requires forall c | c in before + after :: IsSpace(c)
    requires core == "" || (!IsSpace(core[0]) && !IsSpace(core[|core| - 1]))
    ensures TrimSpace(before + core + after) == core
  {
    if core == "" {
      TrimLeftOf(before + after, "", IsSpace);
      assert before + core + after == before + after + "";
    } else {
      TrimLeftOf(before, core + after, IsSpace);
      assert before + core + after == before + (core + after);
      TrimRightOf(core, after, IsSpace);
    }
  }

  /** Every text is a core without surrounding space, and that space. */
  lemma TrimSpaceParts(s: string) returns (before: string, after: string)
    ensures s == before + TrimSpace(s) + after
    ensures forall c | c in before + after :: IsSpace(c)
  {
    var left;
    before, left := TrimLeftParts(s, IsSpace);
    var core;
    core, after := TrimRightParts(left, IsSpace);
  }

  lemma {:induction false} TrimLeftParts(s: string, drop: char -> bool) returns (before: string, rest: string)
    ensures rest == TrimLeft(s, drop) && s == before + rest
    ensures forall c | c in before :: drop(c)
  {
    if s != [] && drop(s[0]) {
      before, rest := TrimLeftParts(s[1..], drop);
      before := [s[0]] + before;
    } else {
      before, rest := "", s;
    }
  }

  lemma {:induction false} TrimRightParts(s: string, drop: char -> bool) returns (rest: string, after: string)
    ensures rest == TrimRight(s, drop) && s == rest + after
    ensures forall c | c in after :: drop(c)
  {
    if s != [] && drop(s[|s| - 1]) {
      rest, after := TrimRightParts(s[..|s| - 1], drop);
      after := after + [s[|s| - 1]];
    } else {
      rest, after := s, "";
    }
  }

  // ---- decimal numerals ----

  predicate IsDigit(c: char) {
    '0' <= c <= '9'
  }

  function DigitChar(n: nat): (c: char)
    requires n < 10
    ensures IsDigit(c) && DigitValue(c) == n
  {
    '0' + n as char
  }

  function DigitValue(c: char): nat
    requires IsDigit(c)
  {
    c as int - '0' as int
  }

  /** What the %d verb prints for a non-negative number. */
  function Decimal(n: nat): (s: string)
    ensures s != []
  {
    if n < 10 then [DigitChar(n)] else Decimal(n / 10) + [DigitChar(n % 10)]
  }

  /** What the %d verb prints. */
  function DecimalInt(n: int): string {
    if n < 0 then "-" + Decimal(-n) else Decimal(n)
  }

  /** Reads digits for as long as there are any, continuing from the number read so far. */
  function ReadDigits(s: string, soFar: nat): (nat, string) {
    if s != [] && IsDigit(s[0]) then ReadDigits(s[1..], 10 * soFar + DigitValue(s[0])) else (soFar, s)
  }

  /** The number at the front of s and the text behind it. */
  function ReadNumber(s: string): Option<(nat, string)> {
    if s != [] && IsDigit(s[0]) then Some(ReadDigits(s, 0)) else None
  }

  lemma {:induction false} ReadDigitsOfDecimal(n: nat, rest: string)
    ensures ReadDigits(Decimal(n) + rest, 0) == ReadDigits(rest, n)
  {
    if n < 10 {
      assert (Decimal(n) + rest)[1..] == rest;
    } else {
      var tail := [DigitChar(n % 10)] + rest;
      assert Decimal(n) + rest == Decimal(n / 10) + tail;
      ReadDigitsOfDecimal(n / 10, tail);
      assert tail[1..] == rest;
    }
  }

  lemma {:induction false} DecimalStartsWithDigit(n: nat)
    ensures IsDigit(Decimal(n)[0])
  {
    if 10 <= n {
      DecimalStartsWithDigit(n / 10);
    }
  }

  /** Nothing is padded: only zero starts with a zero. */
  lemma {:induction false} DecimalUnpadded(n: nat)
    ensures Decimal(0) == "0" && (0 < n ==> Decimal(n)[0] != '0')
  {
    if 10 <= n {
      DecimalUnpadded(n / 10);
    }
  }

  /** Reading undoes printing, whatever non-digit text follows the number. */
  lemma ReadNumberOfDecimal(n: nat, rest: string)
    requires rest == [] || !IsDigit(rest[0])
    ensures ReadNumber(Decimal(n) + rest) == Some((n, rest))
  {
    DecimalStartsWithDigit(n);
    ReadDigitsOfDecimal(n, rest);
  }

  // ---- paths ----

  /** Where the file name in a path begins: after the last slash. */
  function BaseStart(path: string): (k: nat)
    ensures k <= |path|
    ensures forall i | k <= i < |path| :: path[i] != '/'
    ensures 0 < k ==> path[k - 1] == '/'
  {
    if path == "" then 0
    else if path[|path| - 1] == '/' then |path|
    else BaseStart(path[..|path| - 1])
  }

  function BaseName(path: string): string {
    path[BaseStart(path)..]
  }

  lemma BaseStartIs(path: string, k: nat)
    requires k <= |path| && (forall i | k <= i < |path| :: path[i] != '/')
    requires 0 < k ==> path[k - 1] == '/'
    ensures BaseStart(path) == k
  {
    var found := BaseStart(path);
    assert !(found < k) && !(k < found);
  }

  /** A name without a slash is its own base name, and that of every path to it. */
  lemma BaseNameOf(dir: string, name: string)
    requires '/' !in name
    ensures BaseName(name) == name && BaseName(dir + "/" + name) == name
  {
    BaseStartIs(name, 0);
    BaseStartIs(dir + "/" + name, |dir| + 1);
  }
}
