/**
 Integer formatting of the log stream (src/log/LogStream.cc): digits by truncating
 division through a mirrored digit table, then a reversal in place.
 */
module LogStreams {
  import opened Decimals
  import opened FixedBuffers

  const SMALL_BUFFER_SIZE: nat := 4000
  const MAX_NUMBER_SIZE: nat := 32

  /** Digits of -9 to 9; the digit of 0 is at position ZERO. */
  const DIGITS: string := "9876543210123456789"
  const ZERO: nat := 9

  /** The least and the largest value of the supported integer types: those of
      `long long` and `unsigned long long`. */
  const LEAST: int := -0x8000_0000_0000_0000
  const LARGEST: int := 0xFFFF_FFFF_FFFF_FFFF

  /** C++ division and remainder round towards zero. */
  function Div10(n: int): int { if n >= 0 then n / 10 else -((-n) / 10) }

  function Mod10(n: int): int { n - 10 * Div10(n) }

  // ------------------------------------------------------------------ length

  /** Every supported value takes at most 20 characters. */
  lemma SignedLength(n: int)
    requires LEAST <= n <= LARGEST
    ensures |Signed(n)| <= 20
  {
    PowersOfTen();
    DecimalLength(Abs(n), if n < 0 then 19 else 20);
  }

  /** The most negative and the largest value need 20. */
  lemma LongestNumbers()
    ensures |Signed(LEAST)| == |Signed(LARGEST)| == 20
  {
    PowersOfTen();
    SignedLength(LEAST);
    SignedLength(LARGEST);
    DecimalLength(-LEAST, 18);
    DecimalLength(LARGEST, 19);
  }

  // -------------------------------------------------------------- formatting

  function Reversed(s: string): (r: string)
    ensures |r| == |s| && forall i :: 0 <= i < |s| ==> r[i] == s[|s| - 1 - i]
  {
    seq(|s|, i requires 0 <= i < |s| => s[|s| - 1 - i])
  }

  /** One more low digit: written last, read first. */
  lemma DigitStep(m: nat, n: nat, written: string)
    requires Decimal(m) == Decimal(n) + Reversed(written)
    ensures var w := written + [Digit(n % 10)];
            Decimal(m) == if n < 10 then Reversed(w) else Decimal(n / 10) + Reversed(w)
  {
    var d := [Digit(n % 10)];
    ReversedAppend(written, Digit(n % 10));
    assert Decimal(n) == if n < 10 then d else Decimal(n / 10) + d;
    assert (Decimal(n / 10) + d) + Reversed(written) == Decimal(n / 10) + (d + Reversed(written));
  }

  lemma ReversedAppend(s: string, c: char)
    ensures Reversed(s + [c]) == [c] + Reversed(s)
  {
  }

  lemma TableIsMirrored(n: int)
    ensures -10 < Mod10(n) < 10 && Abs(Div10(n)) == Abs(n) / 10
    ensures DIGITS[ZERO + Mod10(n)] == Digit(Abs(n) % 10)
  {
  }

  lemma PrefixGrows(s: string, n: nat, before: string, text: string)
    requires n <= |s| && s[..n] == before && s[n..] == text
    ensures s == before + text
  {
  }

  /** `std::reverse` on data[lo..hi]. */
  method ReverseRange(data: array<char>, lo: nat, hi: nat)
    requires lo <= hi <= data.Length
    modifies data
    ensures data[lo..hi] == Reversed(old(data[lo..hi]))
    ensures data[..lo] == old(data[..lo]) && data[hi..] == old(data[hi..])
  {
    var i, j := lo, hi;
    while i < j - 1
      invariant lo <= i <= j + 1 && j <= hi && i - lo == hi - j
      invariant forall k :: 0 <= k < data.Length && !(lo <= k < i) && !(j <= k < hi) ==> data[k] == old(data[k])
      invariant forall k :: lo <= k < i || j <= k < hi ==> data[k] == old(data[lo + hi - 1 - k])
    {
      data[i], data[j - 1] := data[j - 1], data[i];
      i, j := i + 1, j - 1;
    }
    MirroredIs(old(data[..]), data[..], lo, hi, i, j);
    assert old(data[..])[lo..hi] == old(data[lo..hi]) && data[..][lo..hi] == data[lo..hi];
  }

  /** A range whose outer parts are swapped, and whose middle is at most one character. */
  lemma MirroredIs(was: string, now: string, lo: nat, hi: nat, i: nat, j: nat)
    requires lo <= i <= j + 1 && lo <= hi && j <= hi <= |was| == |now| && i - lo == hi - j && i >= j - 1
    requires forall k :: i <= k < j ==> now[k] == was[k]
    requires forall k :: lo <= k < i || j <= k < hi ==> now[k] == was[lo + hi - 1 - k]
    ensures now[lo..hi] == Reversed(was[lo..hi])
  {
    var s, t := was[lo..hi], now[lo..hi];
    forall k | 0 <= k < |s| ensures t[k] == s[|s| - 1 - k] {
      var x := lo + k;
      assert t[k] == now[x] && s[|s| - 1 - k] == was[lo + hi - 1 - x];
      assert i <= x < j ==> x == lo + hi - 1 - x;
    }
  }

  class LogStream {
    const buffer: FixedBuffer

    constructor ()
      ensures fresh(buffer) && fresh(buffer.data) && buffer.Valid() && buffer.Contents() == ""
      ensures buffer.data.Length == SMALL_BUFFER_SIZE
    {
      buffer := new FixedBuffer(SMALL_BUFFER_SIZE);
    }

    /** Appends the decimal text of a number when 32 bytes are free, and drops it
        otherwise. */
    method FormatInteger(num: int)
      requires LEAST <= num <= LARGEST && buffer.Valid()
      modifies buffer, buffer.data
      ensures buffer.Valid()
      ensures buffer.Contents() == old(buffer.Contents()) + if old(buffer.Avail()) >= MAX_NUMBER_SIZE then Signed(num) else ""
    {
      if buffer.Avail() >= MAX_NUMBER_SIZE {
        ghost var before := buffer.Contents();
        SignedLength(num);
        var start := buffer.cur;
        var end := WriteText(num, start);
        PrefixGrows(buffer.data[..end], start, before, Signed(num));
        assert buffer.data[..end] == before + Signed(num);
        buffer.Add(end - start);
      }
    }

    method WriteText(num: int, start: nat) returns (end: nat)
      requires |Signed(num)| <= 20 && start + MAX_NUMBER_SIZE <= buffer.data.Length
      modifies buffer.data
      ensures start <= end <= start + 20 && buffer.data[start..end] == Signed(num)
      ensures buffer.data[..start] == old(buffer.data[..start])
    {
      end := WriteDigits(num, start);
      if num < 0 {
        end := WriteSign(start, end);
      }
      Finish(start, end);
    }

    /** Terminates the text and turns it round. */
    method Finish(start: nat, end: nat)
      requires start <= end < buffer.data.Length
      modifies buffer.data
      ensures buffer.data[start..end] == Reversed(old(buffer.data[start..end]))
      ensures buffer.data[..start] == old(buffer.data[..start])
    {
      buffer.data[end] := '\0';
      assert buffer.data[start..end] == old(buffer.data[start..end]);
      ReverseRange(buffer.data, start, end);
    }

    method WriteSign(start: nat, cur: nat) returns (end: nat)
      requires start <= cur < buffer.data.Length
      modifies buffer.data
      ensures end == cur + 1 && Reversed(buffer.data[start..end]) == "-" + Reversed(old(buffer.data[start..cur]))
      ensures buffer.data[..start] == old(buffer.data[..start])
    {
      ghost var digits := buffer.data[start..cur];
      buffer.data[cur] := '-';
      end := cur + 1;
      assert buffer.data[start..end] == digits + ['-'];
      ReversedAppend(digits, '-');
    }

    /** The digits from the lowest to the highest. */
    method WriteDigits(num: int, start: nat) returns (end: nat)
      requires |Decimal(Abs(num))| <= 20 && start + MAX_NUMBER_SIZE <= buffer.data.Length
      modifies buffer.data
      ensures start < end <= start + 20 && end - start == |Decimal(Abs(num))|
      ensures Reversed(buffer.data[start..end]) == Decimal(Abs(num))
      ensures buffer.data[..start] == old(buffer.data[..start])
    {
      var n, cur := num, start;
      assert buffer.data[start..cur] == "";
      while true
        invariant start <= cur <= start + 20 - |Decimal(Abs(n))|
        invariant Decimal(Abs(num)) == Decimal(Abs(n)) + Reversed(buffer.data[start..cur])
        invariant buffer.data[..start] == old(buffer.data[..start])
        decreases Abs(n)
      {
        DigitStep(Abs(num), Abs(n), buffer.data[start..cur]);
        WriteDigit(n, start, cur);
        cur := cur + 1;
        n := Div10(n);
        if n == 0 {
          break;
        }
      }
      end := cur;
    }

    method WriteDigit(n: int, start: nat, cur: nat)
      requires start <= cur < buffer.data.Length
      modifies buffer.data
      ensures buffer.data[start..cur + 1] == old(buffer.data[start..cur]) + [Digit(Abs(n) % 10)]
      ensures buffer.data[..start] == old(buffer.data[..start])
      ensures Abs(Div10(n)) == Abs(n) / 10
    {
      TableIsMirrored(n);
      buffer.data[cur] := DIGITS[ZERO + Mod10(n)];
    }
  }
}
