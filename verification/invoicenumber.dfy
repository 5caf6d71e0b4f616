/** Invoice-number allocation (`generateInvoiceNumber`). Numbers look like
    `INV-2026-0001`: a per-year prefix, then a sequence number left-padded
    with zeros to at least four characters. The clock is the `year`
    parameter, and the store lookup (the most recently created invoice whose
    number starts with the prefix) is the `latest` parameter. */
module InvoiceNumber {
  import opened Wrappers
  import opened JsString
  import opened JsNumber

  /** Minimum width of the sequence part; longer numbers are kept whole. */
  const SequenceWidth: nat := 4

  /** `INV-<year>-`, the year written as JavaScript's `String` writes it. */
  function Prefix(year: int): (p: string)
    ensures |p| == |IntToString(year)| + 5
    ensures StartsWith(p, "INV-") && p[|p| - 1] == '-'
    ensures p[4..|p| - 1] == IntToString(year)
  {
    "INV-" + IntToString(year) + "-"
  }

  /** The part of a stored number after the year prefix: `slice(prefix.length)`.
      A number that starts with the prefix is the prefix followed by it. */
  function SequencePart(year: int, number: string): (r: string)
    ensures StartsWith(number, Prefix(year)) ==> number == Prefix(year) + r
    ensures |number| <= |Prefix(year)| ==> r == []
  {
    SliceFrom(number, |Prefix(year)|)
  }

  /** The sequence value a stored number carries, read the way the allocator
      reads the latest number: `parseInt` of the part after the prefix. */
  function SequenceOf(year: int, number: string): Option<int> {
    ParseInt(SequencePart(year, number))
  }

  /** The sequence number written in the suffix: at least four characters,
      the decimal text of `n` kept whole at the end, zeros in front. */
  function FormatSequence(n: int): (s: string)
    ensures |s| == if |IntToString(n)| >= SequenceWidth then |IntToString(n)| else SequenceWidth
    ensures |s| >= |IntToString(n)| && s[|s| - |IntToString(n)|..] == IntToString(n)
    ensures forall i :: 0 <= i < |s| - |IntToString(n)| ==> s[i] == '0'
  {
    PadStart(IntToString(n), SequenceWidth, '0')
  }

  /** The integer the next number will carry (`nextNum`): one more than the
      value `parseInt` reads from the latest number's suffix, or 1 when there
      is no latest number or the read gives `NaN` (no digit right after the
      optional white space and sign). */
  function NextSequence(year: int, latest: Option<string>): (n: int)
    ensures latest.Some? && SequenceOf(year, latest.value).Some? ==>
      n - 1 == SequenceOf(year, latest.value).value
    ensures latest.None? || SequenceOf(year, latest.value).None? ==> n == 1
  {
    match latest
    case None => 1
    case Some(number) =>
      match SequenceOf(year, number)
      case None => 1
      case Some(k) => k + 1
  }

  /** `generateInvoiceNumber` with the clock and the lookup as parameters. */
  function NextInvoiceNumber(year: int, latest: Option<string>): (r: string)
    ensures StartsWith(r, Prefix(year))
    ensures |r| >= |Prefix(year)| + SequenceWidth
    ensures latest.None? || latest == Some("") ==> r == Prefix(year) + "0001"
  {
    if latest.None? || latest.value == [] then Prefix(year) + "0001"
    else Prefix(year) + FormatSequence(NextSequence(year, latest))
  }

  /** The year is read back from between the dashes of the prefix. */
  lemma PrefixYearReadBack(year: int)
    ensures ParseInt(Prefix(year)[4..|Prefix(year)| - 1]) == Some(year)
  {
    ParseIntOfString(year);
  }

  /** The value 1 is written `0001`. */
  lemma FirstSequenceText()
    ensures FormatSequence(1) == "0001"
  {
    assert IntToString(1) == "1";
  }

  /** Whatever the latest number is, the new one is the prefix followed by
      the formatted successor value. */
  lemma NextNumberShape(year: int, latest: Option<string>)
    ensures SequencePart(year, NextInvoiceNumber(year, latest))
         == FormatSequence(NextSequence(year, latest))
  {
    var p := Prefix(year);
    var r := NextInvoiceNumber(year, latest);
    if latest.None? || latest.value == [] {
      FirstSequenceText();
    }
  }

  /** A parsable suffix `k` is followed by the suffix for `k + 1`. */
  lemma NextAfterParsedValue(year: int, number: string, k: int)
    requires ParseInt(SequencePart(year, number)) == Some(k)
    ensures SequencePart(year, NextInvoiceNumber(year, Some(number))) == FormatSequence(k + 1)
  {
    assert NextSequence(year, Some(number)) == k + 1;
    NextNumberShape(year, Some(number));
  }

  /** A suffix without digits (`parseInt` gives `NaN`) restarts at 0001. */
  lemma NextAfterUnparsableSuffix(year: int, number: string)
    requires ParseInt(SequencePart(year, number)) == None
    ensures NextInvoiceNumber(year, Some(number)) == Prefix(year) + "0001"
  {
    if number != [] {
      assert NextSequence(year, Some(number)) == 1;
      FirstSequenceText();
    }
  }

  /** A non-negative sequence value is written with digits only: zero
      padding in front of its decimal numeral, never truncated. */
  lemma FormatSequenceDigits(n: nat)
    ensures AllDigits(FormatSequence(n))
    ensures |FormatSequence(n)| == if |NatToDecimal(n)| >= SequenceWidth then |NatToDecimal(n)| else SequenceWidth
    ensures DigitsValue(FormatSequence(n)) == n
  {
    var d := NatToDecimal(n);
    var s := FormatSequence(n);
    var z := s[..|s| - |d|];
    assert s == z + d;
    LeadingZerosValue(z, d);
  }

  /** Reading back a formatted sequence value gives the value, unless it is
      between -99 and -1: then the zeros padded in front of the minus sign
      are what `parseInt` reads, and the value read is 0. */
  lemma {:induction false} SequenceRoundTrip(year: int, n: int)
    ensures n >= 0 || n <= -100 ==> SequenceOf(year, Prefix(year) + FormatSequence(n)) == Some(n)
    ensures -99 <= n <= -1 ==> SequenceOf(year, Prefix(year) + FormatSequence(n)) == Some(0)
  {
    SequencePartOfPrefixed(year, FormatSequence(n));
    if n >= 0 {
      FormatReadsBack(n);
    } else if n <= -100 {
      WideNegativeFormatReadsBack(n);
    } else {
      NegativeFormatReadsZero(n);
    }
  }

  lemma SequencePartOfPrefixed(year: int, s: string)
    ensures SequencePart(year, Prefix(year) + s) == s
  {
    var p := Prefix(year);
    assert (p + s)[|p|..] == s;
  }

  lemma {:induction false} FormatReadsBack(n: nat)
    ensures ParseInt(FormatSequence(n)) == Some(n)
  {
    var s := FormatSequence(n);
    FormatSequenceDigits(n);
    assert s + [] == s;
    ParseIntStopsAtNonDigit(s, []);
  }

  /** From -100 down, the numeral already has four characters: no padding. */
  lemma {:induction false} WideNegativeFormatReadsBack(n: int)
    requires n <= -100
    ensures ParseInt(FormatSequence(n)) == Some(n)
  {
    var d := IntToString(n);
    DecimalLength(-n);
    assert |d| >= SequenceWidth by {
      assert d == "-" + NatToDecimal(-n);
    }
    assert FormatSequence(n) == d;
    ParseIntOfString(n);
  }

  /** A value between -99 and -1 is padded in front of its minus sign, so
      its formatting parses as 0. */
  lemma {:induction false} NegativeFormatReadsZero(n: int)
    requires -99 <= n <= -1
    ensures ParseInt(FormatSequence(n)) == Some(0)
  {
    var d := IntToString(n);
    DecimalLength(-n);
    assert |d| < SequenceWidth && d[0] == '-' by {
      assert d == "-" + NatToDecimal(-n);
    }
    var s := FormatSequence(n);
    var z := s[..|s| - |d|];
    assert s == z + d;
    assert forall i :: 0 <= i < |z| ==> z[i] == s[i];
    ZerosValue(z);
    ParseIntStopsAtNonDigit(z, d);
  }

  /** The number just allocated carries the value `nextNum`, except for a
      `nextNum` between -99 and -1, which it carries as 0. */
  lemma AllocatedCarriesNextSequence(year: int, latest: Option<string>)
    ensures var m := NextSequence(year, latest);
      SequenceOf(year, NextInvoiceNumber(year, latest))
        == if m >= 0 || m <= -100 then Some(m) else Some(0)
  {
    var p := Prefix(year);
    var r := NextInvoiceNumber(year, latest);
    NextNumberShape(year, latest);
    assert r == p + r[|p|..];
    SequenceRoundTrip(year, NextSequence(year, latest));
  }

  /** Feeding each allocated number back in as the latest one makes the
      sequence value grow by exactly one, except from a value between -100
      and -2, after which the new number carries 0. */
  lemma AllocationIncrements(year: int, number: string, n: int)
    requires SequenceOf(year, number) == Some(n)
    ensures n >= -1 || n <= -101 ==>
      SequenceOf(year, NextInvoiceNumber(year, Some(number))) == Some(n + 1)
    ensures -100 <= n <= -2 ==>
      SequenceOf(year, NextInvoiceNumber(year, Some(number))) == Some(0)
  {
    AllocatedCarriesNextSequence(year, Some(number));
  }

  /** The numbers produced by `count` allocations in a row, each one
      seeing the number produced before it as the latest (none before the
      first). */
  function Chain(allocate: Option<string> -> string, count: nat): (ns: seq<string>)
    ensures |ns| == count
  {
    if count == 0 then []
    else
      var earlier := Chain(allocate, count - 1);
      earlier + [allocate(if count == 1 then None else Some(earlier[count - 2]))]
  }

  /** The first `count` numbers allocated in a year that starts without
      invoices. */
  function Allocations(year: int, count: nat): (ns: seq<string>)
    ensures |ns| == count
  {
    Chain(latest => NextInvoiceNumber(year, latest), count)
  }

  lemma PrefixOfPrefix<T>(s: seq<T>, a: nat, b: nat)
    requires a <= b <= |s|
    ensures s[..b][..a] == s[..a]
  {
  }

  /** Allocating more numbers never changes the ones already allocated. */
  lemma {:induction false} ChainExtends(allocate: Option<string> -> string, m: nat, n: nat)
    requires m <= n
    ensures Chain(allocate, n)[..m] == Chain(allocate, m)
    decreases n
  {
    if m < n {
      ChainExtends(allocate, m, n - 1);
      var ns := Chain(allocate, n);
      assert ns[..n - 1] == Chain(allocate, n - 1);
      PrefixOfPrefix(ns, m, n - 1);
    }
  }

  /** The `count`-th allocation of a year carries the value `count`. */
  lemma {:induction false} AllocationValue(year: int, count: nat)
    requires count >= 1
    ensures Allocations(year, count)[count - 1] == Prefix(year) + FormatSequence(count)
  {
    var p := Prefix(year);
    var allocate := latest => NextInvoiceNumber(year, latest);
    var last := Chain(allocate, count)[count - 1];
    if count == 1 {
      assert last == NextInvoiceNumber(year, None);
      FirstSequenceText();
    } else {
      AllocationValue(year, count - 1);
      var prev := Chain(allocate, count - 1)[count - 2];
      assert last == NextInvoiceNumber(year, Some(prev));
      SequenceRoundTrip(year, count - 1);
      NextAfterParsedValue(year, prev, count - 1);
      assert last == p + last[|p|..];
    }
  }

  /** The i-th allocation (from 0) of a year carries the value i + 1. */
  lemma AllocationAt(year: int, count: nat, i: nat)
    requires i < count
    ensures Allocations(year, count)[i] == Prefix(year) + FormatSequence(i + 1)
    ensures SequenceOf(year, Allocations(year, count)[i]) == Some(i + 1)
  {
    var allocate := latest => NextInvoiceNumber(year, latest);
    var ns := Chain(allocate, count);
    ChainExtends(allocate, i + 1, count);
    assert ns[i] == ns[..i + 1][i];
    AllocationValue(year, i + 1);
    SequenceRoundTrip(year, i + 1);
  }

  /** In a year that starts without invoices the i-th allocation (from 1)
      is `INV-<year>-` followed by i padded to four characters, so the
      numbers of a year are distinct and their values strictly increase. */
  lemma AllocationsCountUp(year: int, count: nat)
    ensures forall i :: 0 <= i < count ==>
      Allocations(year, count)[i] == Prefix(year) + FormatSequence(i + 1)
    ensures forall i :: 0 <= i < count ==>
      SequenceOf(year, Allocations(year, count)[i]) == Some(i + 1)
  {
    forall i | 0 <= i < count
      ensures Allocations(year, count)[i] == Prefix(year) + FormatSequence(i + 1)
      ensures SequenceOf(year, Allocations(year, count)[i]) == Some(i + 1)
    {
      AllocationAt(year, count, i);
    }
  }

  /** Distinct allocations in a year never repeat a number. */
  lemma AllocationsDistinct(year: int, count: nat, i: nat, j: nat)
    requires i < j < count
    ensures Allocations(year, count)[i] != Allocations(year, count)[j]
  {
    AllocationsCountUp(year, count);
  }

  /** An out-of-range suffix shows how padding treats a negative value: the
      zeros go in front of the minus sign. */
  lemma NegativeSuffixPadsBeforeSign()
    ensures NextInvoiceNumber(7, Some("INV-7--5")) == "INV-7-00-4"
  {
    assert Prefix(7) == "INV-7-";
    assert SequencePart(7, "INV-7--5") == "-5";
    assert TrimStart("-5") == "-5";
    assert DigitPrefix("5") == "5";
    assert ParseInt("-5") == Some(-5);
    assert IntToString(-4) == "-4";
  }
}
