/** Atoms: short names packed into a 64-bit integer, six bits a character. */
module Atoms {
  const MAX_I64: int := 0x7FFF_FFFF_FFFF_FFFF
  const TAG: int := 0x1000_0000_0000_0000

  // ----------------------------------------------------------- the two tables

  /** `encoding_table`: 0 for every character outside the alphabet. */
  function Code(c: char): (r: nat)
    ensures r < 64
  {
    if '0' <= c <= '9' then c as int - '0' as int + 1
    else if 'A' <= c <= 'Z' then c as int - 'A' as int + 11
    else if c == '_' then 37
    else if 'a' <= c <= 'z' then c as int - 'a' as int + 38
    else 0
  }

  /** `decoding_table`. */
  function Letter(n: nat): char
    requires n < 64
  {
    if n == 0 then ' '
    else if n <= 10 then (n - 1) as char + '0'
    else if n <= 36 then (n - 11) as char + 'A'
    else if n == 37 then '_'
    else (n - 38) as char + 'a'
  }

  /** The 63 characters of the alphabet: digits, letters and the underscore. */
  predicate InAlphabet(c: char) {
    '0' <= c <= '9' || 'A' <= c <= 'Z' || 'a' <= c <= 'z' || c == '_'
  }

  /** A character that comes back as it is. */
  predicate Plain(c: char) { c == ' ' || InAlphabet(c) }

  const LETTERS := " 0123456789" + "ABCDEFGHIJKLMNOPQRSTUVWXYZ" + "_" + "abcdefghijklmnopqrstuvwxyz"

  lemma LetterOfCode(c: char)
    ensures Letter(Code(c)) == if Plain(c) then c else ' '
  {
  }

  lemma CodeOfLetter(n: nat)
    requires n < 64
    ensures Code(Letter(n)) == n && Plain(Letter(n))
  {
  }

  /** Each code has its letter, and each letter its code: those of the alphabet are in
      the order of the string, and all other characters share the code of the blank. */
  lemma Tables(n: nat)
    requires n < 64
    ensures |LETTERS| == 64 && Letter(n) == LETTERS[n] && Code(Letter(n)) == n
    ensures n > 0 ==> InAlphabet(Letter(n))
  {
    CodeOfLetter(n);
  }

  lemma CodeIsPositive(c: char)
    ensures Code(c) > 0 <==> InAlphabet(c)
    ensures InAlphabet(c) ==> LETTERS[Code(c)] == c
  {
    LetterOfCode(c);
    Tables(Code(c));
  }

  // ----------------------------------------------------------------- encoding

  function NextInterim(current: nat, c: char): nat { current * 64 + Code(c) }

  /** `atom_val` of a C string: what follows a null character is not seen. */
  function AtomVal(s: string, interim: nat): nat {
    if s == "" || s[0] == '\0' then interim else AtomVal(s[1..], NextInterim(interim, s[0]))
  }

  function MakeAtom(s: string): int { AtomVal(s, 0) + TAG }

  // ----------------------------------------------------------------- decoding

  function Power(k: nat): (r: nat)
    ensures r > 0
  {
    if k == 0 then 1 else 64 * Power(k - 1)
  }

  /** The digits of n to the base 64, most significant first. */
  function Digits(n: nat): seq<nat> {
    if n == 0 then [] else Digits(n / 64) + [n % 64]
  }

  predicate AreDigits(ds: seq<nat>) { forall k | 0 <= k < |ds| :: ds[k] < 64 }

  function Letters(ds: seq<nat>): (r: string)
    requires AreDigits(ds)
    ensures |r| == |ds| && forall k | 0 <= k < |ds| :: r[k] == Letter(ds[k])
  {
    seq(|ds|, k requires 0 <= k < |ds| => Letter(ds[k]))
  }

  lemma {:induction false} DigitsAreDigits(n: nat)
    ensures AreDigits(Digits(n))
    ensures n > 0 ==> Digits(n)[0] > 0
  {
    if n > 0 { DigitsAreDigits(n / 64); }
  }

  /** The name whose digits the number has. */
  function NameOf(n: nat): string {
    DigitsAreDigits(n);
    Letters(Digits(n))
  }

  lemma NameStep(n: nat)
    requires n > 0
    ensures NameOf(n) == NameOf(n / 64) + [Letter(n % 64)]
  {
    DigitsAreDigits(n);
    DigitsAreDigits(n / 64);
  }

  datatype Name = Name(str: string) | OutsideTable

  /** C++ division and remainder, which go towards zero. */
  function Quotient(n: int): int { if n < 0 then -((-n) / 64) else n / 64 }

  function Remainder(n: int): int { n - 64 * Quotient(n) }

  /** `atom_val` of a number: fills a buffer of 21 characters from its end. The loop
      never leaves the buffer, and it leaves the table if and only if the number is
      negative. */
  method Decode(av: int) returns (name: Name)
    requires -MAX_I64 - 1 <= av <= MAX_I64
    ensures name == if av >= 0 then Name(NameOf(av)) else OutsideTable
  {
    var buf := new char[21](_ => '\0');
    var pos, n := 19, av;
    PowerValues();
    while n != 0
      invariant 8 <= pos <= 19 && 0 - Power(pos - 8) < n < Power(pos - 8)
      invariant av < 0 ==> n < 0
      invariant av >= 0 ==> n >= 0 && NameOf(av) == NameOf(n) + buf[pos + 1..20]
      decreases if n < 0 then -n else n
    {
      if Remainder(n) < 0 { return OutsideTable; }
      if n > 0 { NameStep(n); }
      ghost var was := buf[pos + 1..20];
      assert Power(pos - 8) == 64 * Power(pos - 9);
      buf[pos] := Letter(Remainder(n));
      assert buf[pos..20] == [Letter(Remainder(n))] + was;
      pos := pos - 1;
      n := Quotient(n);
    }
    pos := pos + 1;
    name := Name(buf[pos..20]);
  }

  /** `atom` of a number for which the difference is one of 64 bits: numbers from
      the smallest atom on have a name, and no others. */
  method NameOfAtom(val: int) returns (name: Name)
    requires TAG - MAX_I64 - 1 <= val <= MAX_I64
    ensures name == if val >= TAG then Name(NameOf(val - TAG)) else OutsideTable
  {
    name := Decode(val - TAG);
  }

  lemma PowerValues()
    ensures Power(0) == 1 && Power(10) == TAG && Power(11) > MAX_I64
  {
    assert Power(2) == 64 * Power(1) && Power(3) == 64 * Power(2) && Power(4) == 64 * Power(3) && Power(5) == 64 * Power(4);
    assert Power(6) == 64 * Power(5) && Power(7) == 64 * Power(6) && Power(8) == 64 * Power(7);
    assert Power(9) == 64 * Power(8) && Power(10) == 64 * Power(9) && Power(11) == 64 * Power(10);
  }

  // --------------------------------------------------------------- what is kept

  /** The part of a C string before its end. */
  function Cut(s: string): (r: string)
    ensures |r| <= |s| && r == s[..|r|]
    ensures forall k | 0 <= k < |r| :: r[k] != '\0'
    ensures |r| < |s| ==> s[|r|] == '\0'
  {
    if s == "" || s[0] == '\0' then "" else [s[0]] + Cut(s[1..])
  }

  /** The string with every character outside the alphabet made a blank. */
  function Blanked(s: string): (r: string)
    ensures |r| == |s| && forall k | 0 <= k < |s| :: r[k] == if Plain(s[k]) then s[k] else ' '
  {
    seq(|s|, k requires 0 <= k < |s| => if Plain(s[k]) then s[k] else ' ')
  }

  function Unpadded(s: string): string {
    if s != "" && s[0] == ' ' then Unpadded(s[1..]) else s
  }

  /** What is kept of a string: blanks for strange characters, none in front. */
  function Canonical(s: string): string { Unpadded(Blanked(Cut(s))) }

  /** Strings kept as they are, which those over the alphabet of 63 are. */
  predicate Regular(s: string) {
    && (forall k | 0 <= k < |s| :: Plain(s[k]))
    && (s != "" ==> s[0] != ' ')
  }

  lemma RegularIsKept(s: string)
    ensures Canonical(s) == s <==> Regular(s)
  {
    var c := Cut(s);
    var b := Blanked(c);
    UnpaddedTail(b);
    if Regular(s) {
      assert Code('\0') == 0;
      assert c == s;
      assert b == s;
    }
    if Canonical(s) == s {
      assert |Unpadded(b)| == |b| == |s|;
      assert b == s;
      forall k | 0 <= k < |s| ensures Plain(s[k]) { assert Code(' ') == 0; }
    }
  }

  lemma {:induction false} UnpaddedTail(s: string)
    ensures |Unpadded(s)| <= |s| && Unpadded(s) == s[|s| - |Unpadded(s)|..]
    ensures Unpadded(s) != "" ==> Unpadded(s)[0] != ' '
  {
    if s != "" && s[0] == ' ' {
      UnpaddedTail(s[1..]);
    }
  }

  // --------------------------------------------------------------------- the laws

  predicate NoNull(s: string) { forall k | 0 <= k < |s| :: s[k] != '\0' }

  /** What follows a null character does not matter. */
  lemma {:induction false} AtomValCut(s: string, interim: nat)
    ensures NoNull(Cut(s)) && AtomVal(Cut(s), interim) == AtomVal(s, interim)
  {
    if s != "" && s[0] != '\0' {
      AtomValCut(s[1..], NextInterim(interim, s[0]));
      assert Cut(s)[1..] == Cut(s[1..]);
    }
  }

  /** The last character is the last digit. */
  lemma {:induction false} AtomValPush(s: string, c: char, interim: nat)
    requires NoNull(s) && c != '\0'
    ensures AtomVal(s + [c], interim) == NextInterim(AtomVal(s, interim), c)
  {
    var all := s + [c];
    if s == "" {
      assert all == [c] && all[1..] == "";
      assert AtomVal(all[1..], NextInterim(interim, c)) == NextInterim(interim, c);
    } else {
      AtomValPush(s[1..], c, NextInterim(interim, s[0]));
      assert all[1..] == s[1..] + [c];
    }
  }

  lemma {:induction false} UnpaddedPush(s: string, c: char)
    ensures Unpadded(s + [c]) == if Unpadded(s) == "" && c == ' ' then "" else Unpadded(s) + [c]
  {
    if s == "" {
      assert s + [c] == [c];
      assert [c][1..] == "";
    } else if s[0] == ' ' {
      UnpaddedPush(s[1..], c);
      assert (s + [c])[1..] == s[1..] + [c];
    }
  }

  lemma BlankedPush(s: string, c: char)
    ensures Blanked(s + [c]) == Blanked(s) + [if Plain(c) then c else ' ']
  {
  }

  /** Decoding what was encoded gives what is kept of the string, of any length. */
  lemma DecodeEncode(s: string)
    ensures NameOf(AtomVal(s, 0)) == Canonical(s)
  {
    AtomValCut(s, 0);
    DecodeCut(Cut(s));
  }

  lemma {:induction false} DecodeCut(s: string)
    requires NoNull(s)
    ensures NameOf(AtomVal(s, 0)) == Unpadded(Blanked(s))
    decreases |s|
  {
    if s != "" {
      var n := |s| - 1;
      var front, c := s[..n], s[n];
      assert s == front + [c];
      DecodeCut(front);
      AtomValPush(front, c, 0);
      NamePush(AtomVal(front, 0), Code(c));
      LetterOfCode(c);
      BlankedPush(front, c);
      UnpaddedPush(Blanked(front), Letter(Code(c)));
    }
  }

  /** One more digit is one more letter, but for a blank in front. */
  lemma NamePush(v: nat, d: nat)
    requires d < 64
    ensures NameOf(v * 64 + d) == if NameOf(v) == "" && Letter(d) == ' ' then "" else NameOf(v) + [Letter(d)]
  {
    var w := v * 64 + d;
    assert w / 64 == v && w % 64 == d;
    CodeOfLetter(d);
    if w > 0 { NameStep(w); }
    if v > 0 { NameStep(v); }
  }

  /** Exact inverse: the atom's name is the string if and only if the string is
      over the alphabet, blanks but not in front allowed. */
  lemma RoundTrip(s: string)
    ensures NameOf(AtomVal(s, 0)) == s <==> Regular(s)
  {
    DecodeEncode(s);
    RegularIsKept(s);
  }

  lemma {:induction false} DigitsValue(m: nat, n: nat)
    requires NameOf(m) == NameOf(n)
    ensures m == n
  {
    DigitsAreDigits(m);
    DigitsAreDigits(n);
    if m > 0 { NameStep(m); }
    if n > 0 { NameStep(n); }
    if m > 0 && n > 0 {
      var a, b := NameOf(m), NameOf(n);
      assert a[..|a| - 1] == NameOf(m / 64) && b[..|b| - 1] == NameOf(n / 64);
      assert a[|a| - 1] == Letter(m % 64) && b[|b| - 1] == Letter(n % 64);
      CodeOfLetter(m % 64);
      CodeOfLetter(n % 64);
      DigitsValue(m / 64, n / 64);
    }
  }

  /** Two strings make one atom if and only if the same is kept of both. */
  lemma Injective(s: string, t: string)
    ensures MakeAtom(s) == MakeAtom(t) <==> Canonical(s) == Canonical(t)
  {
    DecodeEncode(s);
    DecodeEncode(t);
    if Canonical(s) == Canonical(t) { DigitsValue(AtomVal(s, 0), AtomVal(t, 0)); }
  }

  lemma DistinctStrings(s: string, t: string)
    requires Regular(s) && Regular(t) && s != t
    ensures MakeAtom(s) != MakeAtom(t)
  {
    Injective(s, t);
    RegularIsKept(s);
    RegularIsKept(t);
  }

  // ------------------------------------------------------------------------ order

  /** The order of strings, character by character. */
  predicate Less(s: string, t: string) {
    t != "" && (s == "" || s[0] < t[0] || (s[0] == t[0] && Less(s[1..], t[1..])))
  }

  predicate OverAlphabet(s: string) { forall k | 0 <= k < |s| :: InAlphabet(s[k]) }

  /** Strings of one length compare as their atoms do. */
  lemma {:induction false} OrderFrom(s: string, t: string, i: nat, j: nat)
    requires |s| == |t| && OverAlphabet(s) && OverAlphabet(t)
    ensures i == j ==> (Less(s, t) <==> AtomVal(s, i) < AtomVal(t, j))
    ensures i < j ==> AtomVal(s, i) < AtomVal(t, j)
    decreases |s|
  {
    if s != "" {
      assert Code('\0') == 0;
      var i', j' := NextInterim(i, s[0]), NextInterim(j, t[0]);
      OrderFrom(s[1..], t[1..], i', j');
      OrderFrom(t[1..], s[1..], j', i');
      assert s[0] < t[0] <==> Code(s[0]) < Code(t[0]);
    }
  }

  lemma Order(s: string, t: string)
    requires |s| == |t| && OverAlphabet(s) && OverAlphabet(t)
    ensures Less(s, t) <==> MakeAtom(s) < MakeAtom(t)
  {
    OrderFrom(s, t, 0, 0);
  }

  // ------------------------------------------------------------------------ range

  /** Every value on the way to the atom fits in 64 bits with a sign. */
  predicate StepsFit(s: string, interim: nat) {
    if s == "" || s[0] == '\0' then interim + TAG <= MAX_I64
    else
      var next := NextInterim(interim, s[0]);
      next <= MAX_I64 && StepsFit(s[1..], next)
  }

  lemma Between(i: nat, c: nat, p: nat)
    requires c < 64
    ensures i * (64 * p) <= (i * 64 + c) * p
    ensures (i * 64 + c + 1) * p <= (i + 1) * (64 * p)
  {
    assert (i * 64 + c) * p == i * (64 * p) + c * p;
    assert (i + 1) * (64 * p) == (i * 64 + c + 1) * p + (63 - c) * p;
  }

  lemma {:induction false} Bounds(s: string, interim: nat)
    ensures interim * Power(|Cut(s)|) <= AtomVal(s, interim) < (interim + 1) * Power(|Cut(s)|)
    ensures interim <= AtomVal(s, interim)
    ensures StepsFit(s, interim) <==> AtomVal(s, interim) + TAG <= MAX_I64
  {
    if s != "" && s[0] != '\0' {
      var next, p := NextInterim(interim, s[0]), Power(|Cut(s[1..])|);
      Bounds(s[1..], next);
      assert |Cut(s)| == 1 + |Cut(s[1..])|;
      Between(interim, Code(s[0]), p);
    }
  }

  /** Ten characters never overflow, whatever they are. The check in front of the
      run-time conversion lets eleven through: they overflow if and only if the
      first is '6' or a later one of the alphabet. */
  lemma Range(s: string)
    requires |Cut(s)| <= 11
    ensures StepsFit(s, 0) <==> |Cut(s)| <= 10 || s[0] < '6' || !InAlphabet(s[0])
    ensures |Cut(s)| <= 10 ==> TAG <= MakeAtom(s) < 2 * TAG
  {
    Bounds(s, 0);
    if |Cut(s)| == 11 { Eleven(s); } else { Ten(s); }
  }

  lemma Ten(s: string)
    requires |Cut(s)| <= 10
    ensures AtomVal(s, 0) < TAG
  {
    PowerValues();
    Bounds(s, 0);
    PowerMonotone(|Cut(s)|, 10);
  }

  lemma Eleven(s: string)
    requires |Cut(s)| == 11
    ensures AtomVal(s, 0) + TAG <= MAX_I64 <==> Code(s[0]) <= 6
  {
    PowerValues();
    var rest := s[1..];
    assert |Cut(rest)| == 10;
    Bounds(rest, Code(s[0]));
    assert AtomVal(s, 0) == AtomVal(rest, Code(s[0]));
  }

  lemma {:induction false} PowerMonotone(j: nat, k: nat)
    requires j <= k
    ensures Power(j) <= Power(k)
    decreases k
  {
    if j < k { PowerMonotone(j, k - 1); }
  }
}
