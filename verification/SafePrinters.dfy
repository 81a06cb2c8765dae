/**
 The number printers of the crash handler, which work in a caller's buffer without touching the heap:
 digits are written from the back, at most 30 of them, behind a terminating NUL in the 32nd byte.
 */
module SafePrinters {
  import opened Common

  const RES_MAX_LENGTH := 32
  const DIGIT_SLOTS := 30

  const INT32_MAX := 0x7FFF_FFFF

  const NUL: char := '\0'

  type Base = b: nat | 1 <= b <= 16 witness 10

  const LOWER_CASE: string := "0123456789abcdef"
  const UPPER_CASE: string := "0123456789ABCDEF"

  // ---------------------------------------------------------------- numerals

  lemma Divided(x: nat, d: nat)
    requires d > 0
    ensures x == d * (x / d) + x % d && x % d < d
  {
  }

  function Rest(val: nat, base: Base): (r: nat)
    ensures r <= val
  {
    Divided(val, base);
    val / base
  }

  function LastDigit(val: nat, base: Base): (d: nat)
    ensures d < 16
  {
    val % base
  }

  /** The last `slots` digits of a number, fewer when the rest are zero. */
  function Digits(val: nat, base: Base, slots: nat, table: string): (s: string)
    requires |table| == 16
    ensures |s| <= slots
    decreases val, slots
  {
    if val == 0 || slots == 0 then ""
    else Digits(Rest(val, base), base, slots - 1, table) + [table[LastDigit(val, base)]]
  }

  function DigitValue(c: char): nat {
    if '0' <= c <= '9' then c as nat - '0' as nat
    else if 'a' <= c <= 'f' then c as nat - 'a' as nat + 10
    else if 'A' <= c <= 'F' then c as nat - 'A' as nat + 10
    else 0
  }

  function Times(a: nat, b: nat): (p: nat)
    ensures a > 0 && b > 0 ==> p > 0
  {
    a * b
  }

  /** Reading a numeral, the reference for what was printed. */
  function ReadBack(s: string, base: Base): nat {
    if s == "" then 0 else Times(base, ReadBack(s[..|s| - 1], base)) + DigitValue(s[|s| - 1])
  }

  function Pow(base: Base, n: nat): (p: nat)
    ensures p > 0
  {
    if n == 0 then 1 else Times(base, Pow(base, n - 1))
  }

  predicate IsDigit(c: char, d: nat) {
    DigitValue(c) == d && c != NUL && (c == '0' <==> d == 0)
  }

  /** The entries stand for their own positions. */
  predicate IsTable(table: string) {
    |table| == 16 && forall d :: 0 <= d < 16 ==> IsDigit(table[d], d)
  }

  lemma TheTables()
    ensures IsTable(LOWER_CASE) && IsTable(UPPER_CASE)
  {
  }

  lemma Regroup(base: nat, p: nat, q: nat, r: nat, d: nat)
    requires r < p && d < base
    ensures base * (p * q + r) + d == (base * p) * q + (base * r + d)
    ensures base * r + d < base * p
  {
    assert base * (p * q) == (base * p) * q;
    assert base * (r + 1) <= base * p;
  }

  lemma SplitRemainder(val: nat, base: nat, p: nat)
    requires base > 0 && p > 0
    ensures Times(base, p) > 0
    ensures val % Times(base, p) == Times(base, val / base % p) + val % base
  {
    var q, r, d := val / base / p, val / base % p, val % base;
    Divided(val, base);
    Divided(val / base, p);
    Regroup(base, p, q, r, d);
    QuotientIs(val, Times(base, p), q, base * r + d);
  }

  lemma ReadBackAppend(s: string, c: char, base: Base)
    ensures ReadBack(s + [c], base) == Times(base, ReadBack(s, base)) + DigitValue(c)
  {
  }

  lemma Remainder(x: nat, d: nat)
    requires d > 0
    ensures x % d == x <==> x < d
  {
  }

  /** What was printed reads back as the number modulo what fits in the slots. */
  lemma {:induction false} DigitsReadBack(val: nat, base: Base, slots: nat, table: string)
    requires IsTable(table)
    ensures ReadBack(Digits(val, base, slots, table), base) == val % Pow(base, slots)
    decreases slots
  {
    if val > 0 && slots > 0 {
      var d := LastDigit(val, base);
      DigitsReadBack(Rest(val, base), base, slots - 1, table);
      assert IsDigit(table[d], d);
      ReadBackAppend(Digits(Rest(val, base), base, slots - 1, table), table[d], base);
      SplitRemainder(val, base, Pow(base, slots - 1));
    } else {
      Remainder(val, Pow(base, slots));
    }
  }

  lemma {:induction false} DigitsHaveNoNul(val: nat, base: Base, slots: nat, table: string)
    requires IsTable(table)
    ensures NUL !in Digits(val, base, slots, table)
    decreases slots
  {
    if val > 0 && slots > 0 {
      DigitsHaveNoNul(Rest(val, base), base, slots - 1, table);
      assert IsDigit(table[LastDigit(val, base)], LastDigit(val, base));
    }
  }

  lemma QuotientBound(val: nat, base: nat, p: nat)
    requires base > 0 && val < Times(base, p)
    ensures val / base < p
  {
  }

  /** There is no leading zero as long as everything fits. */
  lemma {:induction false} NoLeadingZero(val: nat, base: Base, slots: nat, table: string)
    requires IsTable(table) && 0 < val < Pow(base, slots)
    ensures Digits(val, base, slots, table) != "" && Digits(val, base, slots, table)[0] != '0'
    decreases slots
  {
    var rest := Rest(val, base);
    QuotientBound(val, base, Pow(base, slots - 1));
    assert IsDigit(table[LastDigit(val, base)], LastDigit(val, base));
    if rest > 0 {
      NoLeadingZero(rest, base, slots - 1, table);
    } else {
      Divided(val, base);
    }
  }

  lemma TimesAssociates(a: nat, b: nat, c: nat)
    ensures Times(Times(a, b), c) == Times(a, Times(b, c))
  {
  }

  lemma {:induction false} PowSum(base: Base, a: nat, b: nat)
    ensures Pow(base, a + b) == Times(Pow(base, a), Pow(base, b))
  {
    if a > 0 {
      PowSum(base, a - 1, b);
      TimesAssociates(base, Pow(base, a - 1), Pow(base, b));
    }
  }

  lemma ProductMonotone(a: nat, b: nat, x: nat, y: nat)
    requires a <= b && x <= y
    ensures Times(a, x) <= Times(b, y)
  {
  }

  lemma {:induction false} PowMonotone(low: Base, high: Base, n: nat)
    requires low <= high
    ensures Pow(low, n) <= Pow(high, n)
  {
    if n > 0 {
      PowMonotone(low, high, n - 1);
      ProductMonotone(low, high, Pow(low, n - 1), Pow(high, n - 1));
    }
  }

  lemma {:induction false} DigitsLength(val: nat, base: Base, slots: nat, table: string, n: nat)
    requires |table| == 16 && val < Pow(base, n)
    ensures |Digits(val, base, slots, table)| <= n
    decreases slots
  {
    if val > 0 && slots > 0 {
      QuotientBound(val, base, Pow(base, n - 1));
      DigitsLength(Rest(val, base), base, slots - 1, table, n - 1);
    }
  }

  function Printed(val: nat, base: Base, table: string): string
    requires |table| == 16
  {
    if val == 0 then "0" else Digits(val, base, DIGIT_SLOTS, table)
  }

  /** A 64-bit number has at most 16 hexadecimal digits. */
  lemma HexLength(val: nat)
    requires val <= UINT64_MAX
    ensures |Printed(val, 16, LOWER_CASE)| <= 16
  {
    assert Pow(16, 4) == 0x1_0000;
    PowSum(16, 4, 4);
    PowSum(16, 8, 8);
    DigitsLength(val, 16, DIGIT_SLOTS, LOWER_CASE, 16);
  }

  // ---------------------------------------------------------------- round trips

  /** A printed number reads back exactly when it fits in the digit slots. */
  lemma RoundTripIff(val: nat, base: Base, table: string)
    requires IsTable(table)
    ensures ReadBack(Printed(val, base, table), base) == val <==> val < Pow(base, 30)
    ensures 0 < val < Pow(base, 30) ==> Printed(val, base, table)[0] != '0'
    ensures NUL !in Printed(val, base, table)
  {
    if val == 0 {
      assert "0"[..0] == "";
    } else {
      DigitsReadBack(val, base, DIGIT_SLOTS, table);
      DigitsHaveNoNul(val, base, DIGIT_SLOTS, table);
      if val < Pow(base, DIGIT_SLOTS) {
        NoLeadingZero(val, base, DIGIT_SLOTS, table);
      }
      Remainder(val, Pow(base, DIGIT_SLOTS));
    }
  }

  lemma FourIsTooFew()
    ensures Pow(4, DIGIT_SLOTS) <= UINT64_MAX
  {
    assert Pow(4, 10) == 0x10_0000;
    PowSum(4, 10, 10);
    PowSum(4, 20, 10);
  }

  lemma FiveIsEnough()
    ensures Pow(5, DIGIT_SLOTS) > UINT64_MAX
  {
    assert Pow(5, 10) == 9765625;
    PowSum(5, 10, 10);
    PowSum(5, 20, 10);
  }

  /** The digit slots hold every 64-bit number exactly in base five and above. */
  lemma AllWordsRoundTripIff(base: Base, table: string)
    requires IsTable(table)
    ensures (forall val: nat | val <= UINT64_MAX :: ReadBack(Printed(val, base, table), base) == val) <==> base >= 5
  {
    var bound := Pow(base, DIGIT_SLOTS);
    forall val: nat
      ensures ReadBack(Printed(val, base, table), base) == val <==> val < bound
    {
      RoundTripIff(val, base, table);
    }
    if base >= 5 {
      FiveIsEnough();
      PowMonotone(5, base, DIGIT_SLOTS);
    } else {
      FourIsTooFew();
      PowMonotone(base, 4, DIGIT_SLOTS);
      assert ReadBack(Printed(bound, base, table), base) != bound;
    }
  }

  // ---------------------------------------------------------------- C strings

  ghost predicate Holds(memory: array<char>, at: nat, s: string)
    reads memory
  {
    at + |s| <= memory.Length && forall k :: 0 <= k < |s| ==> memory[at + k] == s[k]
  }

  lemma Prepended(memory: array<char>, at: nat, c: char, s: string)
    requires at < memory.Length && memory[at] == c && Holds(memory, at + 1, s)
    ensures Holds(memory, at, [c] + s)
  {
  }

  ghost predicate IsCString(memory: array<char>, at: nat, s: string)
    reads memory
  {
    Holds(memory, at, s + [NUL]) && NUL !in s
  }

  /** Nothing outside [low, high) has changed. */
  twostate predicate OnlyWithin(memory: array<char>, low: nat, high: nat)
    reads memory
  {
    forall k :: 0 <= k < memory.Length && !(low <= k < high) ==> memory[k] == old(memory[k])
  }

  /** Copies a string that starts behind its own copy. */
  method Strcpy(memory: array<char>, dest: nat, src: nat, ghost s: string)
    requires IsCString(memory, src, s) && dest + |s| < src
    modifies memory
    ensures IsCString(memory, dest, s)
    ensures OnlyWithin(memory, dest, dest + |s| + 1)
  {
    var i := 0;
    ghost var z := s + [NUL];
    while memory[src + i] != NUL
      invariant i <= |s|
      invariant Holds(memory, src, z) && Holds(memory, dest, z[..i])
      invariant OnlyWithin(memory, dest, dest + |s| + 1)
      decreases |s| - i
    {
      memory[dest + i] := memory[src + i];
      assert z[i] != NUL ==> i < |s|;
      i := i + 1;
    }
    assert z[i] == NUL && i == |s|;
    memory[dest + i] := NUL;
    assert Holds(memory, dest, z[..i]);
  }

  // ---------------------------------------------------------------- the printers

  /** One more character in front of those that end in NUL. */
  method PutChar(memory: array<char>, at: nat, c: char, ghost written: string)
    requires at < memory.Length && Holds(memory, at + 1, written + [NUL])
    modifies memory
    ensures Holds(memory, at, [c] + written + [NUL]) && OnlyWithin(memory, at, at + 1)
  {
    memory[at] := c;
    Prepended(memory, at, c, written + [NUL]);
    AppendAssociates([c], written, [NUL]);
  }

  method WriteZero(memory: array<char>, res: nat)
    requires res + 2 <= memory.Length
    modifies memory
    ensures IsCString(memory, res, "0") && OnlyWithin(memory, res, res + 2)
  {
    memory[res] := '0';
    memory[res + 1] := NUL;
  }

  /** The digit loop has come down to slot i with v left of val. */
  ghost predicate PrintingUnsigned(val: nat, base: Base, v: nat, i: nat, written: string) {
    && i + |written| == DIGIT_SLOTS
    && Digits(val, base, DIGIT_SLOTS, LOWER_CASE) == Digits(v, base, i, LOWER_CASE) + written
  }

  lemma PrintingUnsignedStep(val: nat, base: Base, v: nat, i: nat, written: string)
    requires PrintingUnsigned(val, base, v, i, written) && v != 0 && i > 0
    ensures PrintingUnsigned(val, base, Rest(v, base), i - 1, [LOWER_CASE[LastDigit(v, base)]] + written)
  {
    AppendAssociates(Digits(Rest(v, base), base, i - 1, LOWER_CASE), [LOWER_CASE[LastDigit(v, base)]], written);
  }

  lemma PrintingUnsignedStarts(val: nat, base: Base)
    ensures PrintingUnsigned(val, base, val, DIGIT_SLOTS, "")
  {
  }

  lemma PrintingUnsignedEnds(val: nat, base: Base, v: nat, i: nat, written: string)
    requires PrintingUnsigned(val, base, v, i, written) && (v == 0 || i == 0)
    ensures written == Digits(val, base, DIGIT_SLOTS, LOWER_CASE)
  {
  }

  /** The digit loop; `written` is what the slots above `i` hold. */
  method UtoaDigits(val: nat, memory: array<char>, res: nat, base: Base) returns (i: nat, ghost written: string)
    requires val != 0 && res + RES_MAX_LENGTH <= memory.Length
    modifies memory
    ensures written == Digits(val, base, DIGIT_SLOTS, LOWER_CASE)
    ensures i + |written| == DIGIT_SLOTS && Holds(memory, res + i + 1, written + [NUL])
    ensures OnlyWithin(memory, res, res + RES_MAX_LENGTH)
  {
    memory[res + RES_MAX_LENGTH - 1] := NUL;
    written := "";
    var v;
    i, v := RES_MAX_LENGTH - 2, val;
    PrintingUnsignedStarts(val, base);
    while v != 0 && i != 0
      invariant PrintingUnsigned(val, base, v, i, written)
      invariant Holds(memory, res + i + 1, written + [NUL])
      invariant OnlyWithin(memory, res, res + RES_MAX_LENGTH)
      decreases i
    {
      PrintingUnsignedStep(val, base, v, i, written);
      var digit := LastDigit(v, base);
      PutChar(memory, res + i, LOWER_CASE[digit], written);
      written := [LOWER_CASE[digit]] + written;
      i, v := i - 1, Rest(v, base);
    }
    PrintingUnsignedEnds(val, base, v, i, written);
  }

  /** Prints at `res` in a 32-byte window of the memory and leaves the rest alone; the string starts at `start`. */
  method Utoa(val: nat, memory: array<char>, res: nat, base: Base) returns (start: nat)
    requires val <= UINT64_MAX && res + 32 <= memory.Length
    modifies memory
    ensures res <= start && start + |Printed(val, base, LOWER_CASE)| < res + 32
    ensures IsCString(memory, start, Printed(val, base, LOWER_CASE))
    ensures OnlyWithin(memory, res, res + 32)
  {
    if val == 0 {
      WriteZero(memory, res);
      start := res;
    } else {
      var i, digits := UtoaDigits(val, memory, res, base);
      TheTables();
      DigitsHaveNoNul(val, base, DIGIT_SLOTS, LOWER_CASE);
      start := res + i + 1;
    }
  }

  function Magnitude(val: int): nat {
    if val >= 0 then val else -val
  }

  /** C division rounds towards zero, so the remainder has the sign of the dividend. */
  function Quotient(val: int, base: Base): (r: int)
    ensures Magnitude(r) == Rest(Magnitude(val), base)
    ensures (val >= 0 ==> r >= 0) && (val <= 0 ==> r <= 0)
  {
    var q: int := Rest(Magnitude(val), base);
    if val >= 0 then q else -q
  }

  function RemainderOf(val: int, base: Base): (r: int)
    ensures Magnitude(r) == LastDigit(Magnitude(val), base)
    ensures (val >= 0 ==> r >= 0) && (val <= 0 ==> r <= 0)
  {
    var d: int := LastDigit(Magnitude(val), base);
    if val >= 0 then d else -d
  }

  function PrintedSigned(val: int, base: Base): string {
    (if val < 0 then "-" else "") + Printed(Magnitude(val), base, UPPER_CASE)
  }

  /** The digits that are printed are not all zero. */
  predicate HasDigit(val: nat, base: Base, slots: nat)
    decreases val, slots
  {
    slots > 0 && (LastDigit(val, base) != 0 || HasDigit(Rest(val, base), base, slots - 1))
  }

  lemma {:induction false} HasDigitIff(val: nat, base: Base, slots: nat)
    ensures HasDigit(val, base, slots) <==> val % Pow(base, slots) != 0
    decreases slots
  {
    if slots > 0 {
      HasDigitIff(Rest(val, base), base, slots - 1);
      SplitRemainder(val, base, Pow(base, slots - 1));
    }
  }

  /** A negative number is printed when its digits in the slots are all zero. */
  predicate CannotPrint(val: int, base: Base) {
    val < 0 && HasDigit(Magnitude(val), base, DIGIT_SLOTS)
  }

  lemma ThreeIsEnoughForAnInt(base: Base)
    requires base >= 3
    ensures Pow(base, DIGIT_SLOTS) > INT32_MAX + 1
  {
    assert Pow(3, 10) == 59049;
    PowSum(3, 10, 10);
    PowSum(3, 20, 10);
    PowMonotone(3, base, DIGIT_SLOTS);
  }

  lemma IntsReadBack(val: nat, base: Base)
    requires val <= INT32_MAX && base >= 3
    ensures ReadBack(PrintedSigned(val, base), base) == val
  {
    ThreeIsEnoughForAnInt(base);
    TheTables();
    RoundTripIff(val, base, UPPER_CASE);
    assert PrintedSigned(val, base) == Printed(val, base, UPPER_CASE);
  }

  /** From base three on no negative int can be printed; in base two only those above -2^30, and in base one none. */
  lemma CannotPrintIff(val: int, base: Base)
    requires -INT32_MAX - 1 <= val <= INT32_MAX
    ensures CannotPrint(val, base) <==> val < 0 && Magnitude(val) % Pow(base, DIGIT_SLOTS) != 0
    ensures base >= 3 ==> (CannotPrint(val, base) <==> val < 0)
  {
    var p := Pow(base, DIGIT_SLOTS);
    HasDigitIff(Magnitude(val), base, DIGIT_SLOTS);
    if base >= 3 && val < 0 {
      ThreeIsEnoughForAnInt(base);
      Remainder(Magnitude(val), p);
    }
  }

  lemma {:induction false} NoDigitInZero(base: Base, slots: nat)
    ensures !HasDigit(0, base, slots)
  {
    if slots > 0 {
      NoDigitInZero(base, slots - 1);
    }
  }

  /** The digit loop has come down to slot i with v left of val, and m its magnitude; or it has met an index in front of
      the table, and val cannot be printed. */
  ghost predicate Printing(val: int, base: Base, v: int, m: nat, i: nat, written: string, inTable: bool) {
    && m == Magnitude(v) && (val > 0 ==> v >= 0) && (val < 0 ==> v <= 0)
    && i + |written| == DIGIT_SLOTS
    && Digits(Magnitude(val), base, DIGIT_SLOTS, UPPER_CASE) == Digits(m, base, i, UPPER_CASE) + written
    && (if inTable then CannotPrint(val, base) == (val < 0 && HasDigit(m, base, i)) else CannotPrint(val, base))
  }

  lemma PrintingStarts(val: int, base: Base)
    ensures Printing(val, base, val, Magnitude(val), DIGIT_SLOTS, "", true)
  {
  }

  lemma PrintingStep(val: int, base: Base, v: int, m: nat, i: nat, written: string)
    requires Printing(val, base, v, m, i, written, true) && v != 0 && i > 0 && val != 0
    ensures var digit := RemainderOf(v, base);
            if digit < 0 then Printing(val, base, v, m, i, written, false)
            else digit < 16 && Printing(val, base, Quotient(v, base), Rest(m, base), i - 1,
                                        [UPPER_CASE[digit]] + written, true)
  {
    var c := [UPPER_CASE[LastDigit(m, base)]];
    AppendAssociates(Digits(Rest(m, base), base, i - 1, UPPER_CASE), c, written);
  }

  lemma PrintingEnds(val: int, base: Base, v: int, m: nat, i: nat, written: string, inTable: bool)
    requires Printing(val, base, v, m, i, written, inTable) && (inTable ==> v == 0 || i == 0)
    ensures !inTable <==> CannotPrint(val, base)
    ensures inTable ==> written == Digits(Magnitude(val), base, DIGIT_SLOTS, UPPER_CASE)
  {
    NoDigitInZero(base, i);
  }

  /** The digit loop, up to the first index in front of the table; `written` is what the slots above `i` hold. */
  method ItoaDigits(val: int, memory: array<char>, res: nat, base: Base)
    returns (i: nat, inTable: bool, ghost written: string)
    requires val != 0 && res + RES_MAX_LENGTH <= memory.Length
    modifies memory
    ensures !inTable <==> CannotPrint(val, base)
    ensures inTable ==> written == Digits(Magnitude(val), base, DIGIT_SLOTS, UPPER_CASE)
    ensures i + |written| == DIGIT_SLOTS && Holds(memory, res + i + 1, written + [NUL])
    ensures OnlyWithin(memory, res, res + RES_MAX_LENGTH)
  {
    ghost var m := Magnitude(val);
    memory[res + RES_MAX_LENGTH - 1] := NUL;
    written := "";
    var v;
    i, v, inTable := RES_MAX_LENGTH - 2, val, true;
    PrintingStarts(val, base);
    while v != 0 && i != 0 && inTable
      invariant Printing(val, base, v, m, i, written, inTable)
      invariant Holds(memory, res + i + 1, written + [NUL])
      invariant OnlyWithin(memory, res, res + RES_MAX_LENGTH)
      decreases i, inTable
    {
      PrintingStep(val, base, v, m, i, written);
      var digit := RemainderOf(v, base);
      if digit < 0 {
        inTable := false;
      } else {
        PutChar(memory, res + i, UPPER_CASE[digit], written);
        written := [UPPER_CASE[digit]] + written;
        i, v, m := i - 1, Quotient(v, base), Rest(m, base);
      }
    }
    PrintingEnds(val, base, v, m, i, written, inTable);
  }

  /** Prints a signed number; None when a negative remainder reads in front of the digit table. */
  method Itoa(val: int, memory: array<char>, res: nat, base: Base) returns (start: Option<nat>)
    requires -INT32_MAX - 1 <= val <= INT32_MAX && res + 32 <= memory.Length
    modifies memory
    ensures start == None <==> CannotPrint(val, base)
    ensures start.Some? ==>
              && res <= start.value && start.value + |PrintedSigned(val, base)| < res + 32
              && IsCString(memory, start.value, PrintedSigned(val, base))
    ensures OnlyWithin(memory, res, res + 32)
  {
    if val == 0 {
      WriteZero(memory, res);
      assert PrintedSigned(val, base) == "0";
      start := Some(res);
    } else {
      var i, inTable, digits := ItoaDigits(val, memory, res, base);
      TheTables();
      DigitsHaveNoNul(Magnitude(val), base, DIGIT_SLOTS, UPPER_CASE);
      start := None;
      if inTable {
        start := Some(res + i + 1);
        if val < 0 {
          PutChar(memory, res + i, '-', digits);
          start := Some(res + i);
        }
        assert PrintedSigned(val, base) == if val < 0 then "-" + digits else digits;
      }
    }
  }

  /** A pointer in hexadecimal behind "0x", in 64 bytes of scratch memory. */
  method Ptoa(val: nat, memory: array<char>, res: nat) returns (start: nat)
    requires val <= UINT64_MAX && res + 64 <= memory.Length
    modifies memory
    ensures start == res && IsCString(memory, res, "0x" + Printed(val, 16, LOWER_CASE))
    ensures OnlyWithin(memory, res, res + 64)
  {
    var buf := Utoa(val, memory, res + RES_MAX_LENGTH, 16);
    ghost var digits := Printed(val, 16, LOWER_CASE);
    HexLength(val);
    Strcpy(memory, res + 2, buf, digits);
    memory[res] := '0';
    memory[res + 1] := 'x';
    ghost var tail := digits + [NUL];
    Prepended(memory, res + 1, 'x', tail);
    Prepended(memory, res, '0', ['x'] + tail);
    assert "0x" + digits + [NUL] == ['0'] + (['x'] + tail);
    return res;
  }

  /** Numerals use lower-case letters, but for signed ones, and a negative one begins with a minus. */
  lemma Numerals(val: int, base: Base)
    ensures LOWER_CASE[10..] == "abcdef" && UPPER_CASE[10..] == "ABCDEF"
    ensures val < 0 ==> PrintedSigned(val, base) == "-" + Printed(-val, base, UPPER_CASE)
    ensures val >= 0 ==> PrintedSigned(val, base) == Printed(val, base, UPPER_CASE)
    ensures Printed(0, base, UPPER_CASE) == Printed(0, base, LOWER_CASE) == "0"
  {
  }
}
