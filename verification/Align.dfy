// Size arithmetic of pkg/base/capacityplanner/common.go and pkg/base/util/convert.go.

module Align {

  const MBYTE: int := 1024 * 1024
  const PE: int := 4 * MBYTE                    // DefaultPESize
  const LVG_METADATA_SIZE: int := MBYTE         // LvgDefaultMetadataSize

  /** Go's `%`: the remainder takes the sign of the dividend. */
  function GoMod(a: int, b: int): (r: int)
    requires b > 0
    ensures -b < r < b
    ensures (a - r) % b == 0
    ensures a >= 0 ==> 0 <= r <= a
    ensures a <= 0 ==> a <= r <= 0
  {
    if a >= 0 then
      ModSub(a, b);
      ModUpper(a, b);
      a % b
    else
      ModSub(-a, b);
      ModNeg(-a - (-a) % b, b);
      ModUpper(-a, b);
      -((-a) % b)
  }

  lemma ModUpper(a: int, b: int)
    requires a >= 0 && b > 0
    ensures a % b <= a
  {
    assert a == (a / b) * b + a % b;
    if a / b < 0 { assert false; }
    assert (a / b) * b >= 0;
  }

  lemma ModSub(a: int, b: int)
    requires b > 0
    ensures (a - a % b) % b == 0
  {
    assert a - a % b == (a / b) * b;
    MulMod(a / b, b);
  }

  lemma MulMod(k: int, b: int)
    requires b > 0
    ensures (k * b) % b == 0
  {
    var q := (k * b) / b;
    var r := (k * b) % b;
    assert k * b == q * b + r;
    assert r == (k - q) * b;
    if k - q >= 1 { MulGe(k - q, b); } else if k - q <= -1 { MulGe(q - k, b); }
  }

  lemma MulGe(k: int, b: int)
    requires k >= 1 && b > 0
    ensures k * b >= b
  {
  }

  lemma ModNeg(a: int, b: int)
    requires b > 0 && a % b == 0
    ensures (-a) % b == 0
  {
    assert -a == (-(a / b)) * b;
    MulMod(-(a / b), b);
  }

  /** AlignSizeByPE. */
  function AlignPE(size: int): (r: int)
    ensures r % PE == 0
    ensures size >= 0 ==> size <= r < size + PE
  {
    var rem := GoMod(size, PE);
    if rem != 0 then
      assert size + (PE - rem) == (size - rem) + PE;
      size + (PE - rem)
    else size
  }

  /** AlignSizeByMB: despite its name it rounds down. */
  function AlignMB(size: int): (r: int)
    ensures r % MBYTE == 0
    ensures size >= 0 ==> 0 <= r <= size < r + MBYTE
  {
    var rem := GoMod(size, MBYTE);
    if rem != 0 then size - rem else size
  }

  /** SubtractLVMMetadataSize. */
  function SubtractMetadata(size: int): (r: int)
    ensures r % PE == 0
  {
    var rem := GoMod(size, PE);
    var result := size - rem;
    if rem < LVG_METADATA_SIZE then result - PE else result
  }

  // ---- what the three functions mean ----

  ghost predicate IsLeastMultipleFrom(r: int, size: int) {
    r % PE == 0 && size <= r && forall m: int :: m % PE == 0 && size <= m ==> r <= m
  }

  lemma MultiplesApart(a: int, b: int)
    requires a % PE == 0 && b % PE == 0 && a < b
    ensures a + PE <= b
  {
  }

  /** AlignPE is the least multiple of the extent size from `size` up, exactly when Go's
      truncated remainder agrees with the mathematical one. */
  lemma AlignPEIsLeastExactly(size: int)
    ensures IsLeastMultipleFrom(AlignPE(size), size) <==> (size >= 0 || size % PE == 0)
  {
    var r := AlignPE(size);
    if size >= 0 || size % PE == 0 {
      assert size <= r < size + PE by {
        if size < 0 {
          var rem := GoMod(size, PE);
          ModNeg(size, PE);
          assert rem == 0;
        }
      }
      forall m: int | m % PE == 0 && size <= m ensures r <= m {
        if m < r { MultiplesApart(m, r); }
      }
    } else {
      var rem := GoMod(size, PE);
      assert rem != 0;
      assert (size - rem) % PE == 0 && size <= size - rem < r;
    }
  }

  /** Conversion of a drive: the greatest PE multiple that leaves at least 1 MiB for LVM metadata. */
  lemma SubtractMetadataIsGreatest(size: int)
    requires size >= 0
    ensures SubtractMetadata(size) % PE == 0
    ensures SubtractMetadata(size) + LVG_METADATA_SIZE <= size
    ensures forall m: int :: m % PE == 0 && m + LVG_METADATA_SIZE <= size ==> m <= SubtractMetadata(size)
  {
    var r := SubtractMetadata(size);
    forall m: int | m % PE == 0 && m + LVG_METADATA_SIZE <= size ensures m <= r {
      if r < m { MultiplesApart(r, m); }
    }
  }

  lemma AlignPEMonotone(a: int, b: int)
    requires 0 <= a <= b
    ensures AlignPE(a) <= AlignPE(b)
  {
    if AlignPE(b) < AlignPE(a) { MultiplesApart(AlignPE(b), AlignPE(a)); }
  }

  lemma AlignPEFixpoint(a: int)
    requires a >= 0
    ensures AlignPE(AlignPE(a)) == AlignPE(a)
    ensures a % PE == 0 ==> AlignPE(a) == a
  {
  }

  /** ToSizeUnit: the converted value, and whether precision was lost (the error result). */
  function ToSizeUnit(value: int, from: int, to: int): (r: (int, bool))
    requires from > 0 && to > 0
  {
    var byteValue := from * value;
    var rem := GoMod(byteValue, to);
    ((byteValue - rem) / to, rem != 0)
  }

  /** Going to a coarser unit and back is the identity exactly when no error is reported. */
  lemma SizeUnitRoundTrip(value: int, to: int)
    requires to > 0
    ensures var (r, lost) := ToSizeUnit(value, 1, to);
            (!lost <==> ToSizeUnit(r, to, 1).0 == value) && !ToSizeUnit(r, to, 1).1
  {
    var rem := GoMod(value, to);
    var r := (value - rem) / to;
    assert to * r == value - rem;
    var rem1 := GoMod(to * r, 1);
    assert rem1 == 0;
  }

  lemma WholeMiB(k: int)
    requires k >= 0
    ensures GoMod(k * PE, MBYTE) == 0 && (k * PE) / MBYTE == k * 4
  {
    assert k * PE == (k * 4) * MBYTE;
    MulMod(k * 4, MBYTE);
  }

  /** An accounted LVM volume size reaches lvcreate ("<n>m") without loss. */
  lemma AlignedSizeIsWholeMiB(size: nat)
    ensures var (mib, lost) := ToSizeUnit(AlignPE(size), 1, MBYTE);
            !lost && mib * MBYTE == AlignPE(size) && mib % 4 == 0
  {
    var k := AlignPE(size) / PE;
    assert AlignPE(size) == k * PE;
    WholeMiB(k);
  }
}
