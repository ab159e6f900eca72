/** Decoding of the kernel's `Cpus_allowed` affinity mask (`parse_cpus_allowed`):
    a hexadecimal number, possibly written in comma-separated 32-bit groups,
    whose set bits are the CPUs a process may run on. Bit 0 is CPU 0. */
module AffinityMask {

  /** A hexadecimal digit as Python's `int(_, 16)` reads it, in either case. */
  predicate IsHexDigit(c: char)
  {
    '0' <= c <= '9' || 'a' <= c <= 'f' || 'A' <= c <= 'F'
  }

  function HexDigitValue(c: char): (d: nat)
    requires IsHexDigit(c)
    ensures d < 16
  {
    if '0' <= c <= '9' then c as int - '0' as int
    else if 'a' <= c <= 'f' then c as int - 'a' as int + 10
    else c as int - 'A' as int + 10
  }

  /** `mask.replace(',', '')` */
  function StripCommas(s: string): (r: string)
    ensures |r| <= |s|
    ensures ',' !in r
  {
    if s == [] then []
    else (if s[0] == ',' then [] else [s[0]]) + StripCommas(s[1..])
  }

  /** The masks `int(mask.replace(',', ''), 16)` accepts in the form the kernel
      writes them: hexadecimal digits and commas, with at least one digit. On
      anything else Python raises `ValueError`, which nothing in the detector
      catches. */
  predicate ValidMask(mask: string)
  {
    && (forall k :: 0 <= k < |mask| ==> IsHexDigit(mask[k]) || mask[k] == ',')
    && StripCommas(mask) != []
  }

  predicate AllHex(s: string)
  {
    forall k :: 0 <= k < |s| ==> IsHexDigit(s[k])
  }

  /** The unsigned value of a string of hexadecimal digits, most significant first. */
  function HexValue(s: string): nat
    requires AllHex(s)
  {
    if s == [] then 0
    else HexValue(s[..|s| - 1]) * 16 + HexDigitValue(s[|s| - 1])
  }

  lemma {:induction false} StripCommasDigits(s: string)
    requires forall k :: 0 <= k < |s| ==> IsHexDigit(s[k]) || s[k] == ','
    ensures AllHex(StripCommas(s))
  {
    if s != [] {
      StripCommasDigits(s[1..]);
    }
  }

  /** The integer the source decodes: `int(mask.replace(',', ''), 16)`. */
  function MaskValue(mask: string): (v: nat)
    requires ValidMask(mask)
    ensures v < Pow2(4 * |StripCommas(mask)|)
  {
    StripCommasDigits(mask);
    HexValueBound(StripCommas(mask));
    HexValue(StripCommas(mask))
  }

  /** Bit `n` of `v` (`(v >> n) & 1 == 1`). */
  predicate Bit(v: nat, n: nat)
  {
    if n == 0 then v % 2 == 1 else Bit(v / 2, n - 1)
  }

  function Pow2(n: nat): (p: nat)
    ensures p >= 1
  {
    if n == 0 then 1 else 2 * Pow2(n - 1)
  }

  /** The positions, counted from `offset`, of the one bits of `v`, read from
      the least significant end. */
  function BitPositions(v: nat, offset: nat): set<nat>
    decreases v
  {
    if v == 0 then {}
    else (if v % 2 == 1 then {offset} else {}) + BitPositions(v / 2, offset + 1)
  }

  /** The CPUs named by a mask: the one bits of its value. */
  function MaskCpus(mask: string): set<nat>
    requires ValidMask(mask)
  {
    BitPositions(MaskValue(mask), 0)
  }

  /** Zero has no bit set. */
  lemma {:induction false} NoBitOfZero(n: nat)
    ensures !Bit(0, n)
  {
    if n > 0 {
      NoBitOfZero(n - 1);
    }
  }

  /** A value below 2^w has no bit at position w or above. */
  lemma {:induction false} NoBitAbove(v: nat, w: nat, n: nat)
    requires v < Pow2(w)
    requires w <= n
    ensures !Bit(v, n)
  {
    if w == 0 {
      NoBitOfZero(n);
    } else {
      NoBitAbove(v / 2, w - 1, n - 1);
    }
  }

  /** `d` hexadecimal digits hold a value below 2^(4d). */
  lemma {:induction false} HexValueBound(s: string)
    requires AllHex(s)
    ensures HexValue(s) < Pow2(4 * |s|)
  {
    if s != [] {
      var init := s[..|s| - 1];
      HexValueBound(init);
      var w := 4 * |init|;
      assert Pow2(w + 4) == 16 * Pow2(w) by {
        assert Pow2(w + 4) == 2 * Pow2(w + 3) == 4 * Pow2(w + 2) == 8 * Pow2(w + 1);
      }
    }
  }

  /** Position `n` is collected exactly when bit `n - offset` of `v` is one. */
  lemma {:induction false} BitPositionsExact(v: nat, offset: nat, n: nat)
    ensures n in BitPositions(v, offset) <==> offset <= n && Bit(v, n - offset)
    decreases v
  {
    if v == 0 {
      if offset <= n {
        NoBitOfZero(n - offset);
      }
    } else {
      BitPositionsExact(v / 2, offset + 1, n);
    }
  }

  /** `MaskCpus` holds exactly the set bits of the mask's value, and each of
      them lies below four times the number of hex digits. */
  lemma MaskCpusExact(mask: string, n: nat)
    requires ValidMask(mask)
    ensures n in MaskCpus(mask) <==> Bit(MaskValue(mask), n)
    ensures n in MaskCpus(mask) ==> n < 4 * |StripCommas(mask)|
  {
    var s := StripCommas(mask);
    StripCommasDigits(mask);
    BitPositionsExact(MaskValue(mask), 0, n);
    if n >= 4 * |s| {
      HexValueBound(s);
      NoBitAbove(MaskValue(mask), 4 * |s|, n);
    }
  }

  /** `parse_cpus_allowed`: shift the mask value right one bit at a time and
      collect the positions of the ones, until the value is zero. The loop ends
      because the value strictly decreases. */
  method ParseCpusAllowed(mask: string) returns (cpus: set<nat>)
    requires ValidMask(mask)
    ensures forall n: nat :: n in cpus <==> Bit(MaskValue(mask), n)
    ensures forall n :: n in cpus ==> n < 4 * |StripCommas(mask)|
    ensures cpus == MaskCpus(mask)
  {
    var val := MaskValue(mask);
    var bit: nat := 0;
    cpus := {};
    while val != 0
      invariant cpus + BitPositions(val, bit) == MaskCpus(mask)
      decreases val
    {
      if val % 2 == 1 {
        cpus := cpus + {bit};
      }
      val := val / 2;
      bit := bit + 1;
    }
    forall n: nat ensures n in cpus <==> Bit(MaskValue(mask), n) {
      MaskCpusExact(mask, n);
    }
    forall n: nat | n in cpus ensures n < 4 * |StripCommas(mask)| {
      MaskCpusExact(mask, n);
    }
  }

  lemma {:induction false} StripCommasAppend(a: string, b: string)
    ensures StripCommas(a + b) == StripCommas(a) + StripCommas(b)
  {
    if a != [] {
      var head := if a[0] == ',' then [] else [a[0]];
      assert (a + b)[0] == a[0];
      assert (a + b)[1..] == a[1..] + b;
      StripCommasAppend(a[1..], b);
      calc {
        StripCommas(a + b);
        head + StripCommas(a[1..] + b);
        head + (StripCommas(a[1..]) + StripCommas(b));
        (head + StripCommas(a[1..])) + StripCommas(b);
        StripCommas(a) + StripCommas(b);
      }
    } else {
      assert a + b == b;
    }
  }

  /** Two masks with the same digits in the same order name the same CPUs,
      wherever their commas are. */
  lemma SameDigitsSameCpus(m1: string, m2: string)
    requires ValidMask(m1) && ValidMask(m2)
    requires StripCommas(m1) == StripCommas(m2)
    ensures MaskCpus(m1) == MaskCpus(m2)
  {
  }

  /** Inserting a comma anywhere in a mask, as the kernel does between 32-bit
      groups, leaves the decoded CPU set unchanged. */
  lemma CommaInsensitive(a: string, b: string)
    requires ValidMask(a + b)
    ensures ValidMask(a + [','] + b)
    ensures MaskCpus(a + [','] + b) == MaskCpus(a + b)
  {
    var m := a + [','] + b;
    assert StripCommas(m) == StripCommas(a + b) by {
      StripCommasAppend(a + [','], b);
      StripCommasAppend(a, [',']);
      StripCommasAppend(a, b);
      assert StripCommas([',']) == [];
    }
    forall k | 0 <= k < |m| ensures IsHexDigit(m[k]) || m[k] == ',' {
      if k < |a| {
        assert m[k] == (a + b)[k];
      } else if k > |a| {
        assert m[k] == (a + b)[k - 1];
      }
    }
    SameDigitsSameCpus(m, a + b);
  }

  /** A string of zero digits. */
  predicate AllZeroDigits(s: string)
  {
    forall k :: 0 <= k < |s| ==> s[k] == '0' || s[k] == ','
  }

  lemma {:induction false} HexValueOfZeros(s: string)
    requires forall k :: 0 <= k < |s| ==> s[k] == '0'
    ensures AllHex(s) && HexValue(s) == 0
  {
    if s != [] {
      HexValueOfZeros(s[..|s| - 1]);
    }
  }

  lemma {:induction false} StripCommasZeros(s: string)
    requires AllZeroDigits(s)
    ensures forall k :: 0 <= k < |StripCommas(s)| ==> StripCommas(s)[k] == '0'
  {
    if s != [] {
      StripCommasZeros(s[1..]);
    }
  }

  /** A mask of zeros, such as `00000000,00000000`, names no CPU. */
  lemma ZeroMaskIsEmpty(mask: string)
    requires ValidMask(mask)
    requires AllZeroDigits(mask)
    ensures MaskCpus(mask) == {}
  {
    StripCommasZeros(mask);
    HexValueOfZeros(StripCommas(mask));
    forall n: nat ensures n !in MaskCpus(mask) {
      MaskCpusExact(mask, n);
      NoBitOfZero(n);
    }
  }

  /** A mask without commas is read as it stands. */
  lemma {:induction false} NoCommas(s: string)
    requires forall k :: 0 <= k < |s| ==> s[k] != ','
    ensures StripCommas(s) == s
  {
    if s != [] {
      NoCommas(s[1..]);
      assert s == [s[0]] + s[1..];
    }
  }

  /** The lowest hex digit holds CPUs 0 to 3: `"00000005"` names CPUs 0 and 2. */
  lemma LowDigitExample(m: string)
    requires m == "00000005"
    ensures ValidMask(m)
    ensures MaskCpus(m) == {0, 2}
  {
    NoCommas(m);
    assert HexValue(m[..7]) == 0 by {
      HexValueOfZeros(m[..7]);
    }
    assert MaskValue(m) == 5;
    assert BitPositions(5, 0) == {0, 2} by {
      assert BitPositions(1, 2) == {2};
    }
  }
}
