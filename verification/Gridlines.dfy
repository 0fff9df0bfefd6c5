/**
 * Which plot rows carry a 1000 Hz gridline, and what each gridline's label
 * reads.
 *
 * Row i of the plot stands for frequency i * bandWidth Hz, where
 * bandWidth = sampleRate / FftSize. The source tests
 * (i * bandWidth) % 1000 < bandWidth and labels the row with
 * floor(i * bandWidth / 1000) * 1000. Multiplying both sides by FftSize
 * keeps every quantity an integer: row i's frequency, scaled, is
 * i * sampleRate, and 1000 Hz, scaled, is ScaledKHz.
 */
module Gridlines {

  /** The analyser's FFT size. */
  const FftSize: nat := 2048

  /** The number of magnitude bins the analyser fills per frame: half the FFT size. */
  const FrequencyBinCount: nat := FftSize / 2

  /** 1000 Hz multiplied by FftSize. */
  const ScaledKHz: nat := 1000 * FftSize

  /** Row i is a gridline when its frequency lies less than one band above a multiple of 1000 Hz. */
  predicate IsGridLine(sampleRate: nat, i: nat) {
    (i * sampleRate) % ScaledKHz < sampleRate
  }

  /** How many whole thousands of Hz row i's frequency reaches. */
  function Thousands(sampleRate: nat, i: nat): (k: nat)
    ensures k * ScaledKHz <= i * sampleRate < (k + 1) * ScaledKHz
  {
    i * sampleRate / ScaledKHz
  }

  /**
   * The value a label at row i shows (in Hz, before the "Hz" suffix): the
   * largest multiple of 1000 Hz that is not above row i's frequency.
   */
  function LabelValue(sampleRate: nat, i: nat): (hz: nat)
    ensures hz % 1000 == 0
    ensures hz * FftSize <= i * sampleRate < (hz + 1000) * FftSize
  {
    Thousands(sampleRate, i) * 1000
  }

  /** The lowest row whose frequency is at least k * 1000 Hz. */
  function FirstRowAtOrAbove(sampleRate: nat, k: nat): (r: nat)
    requires 0 < sampleRate
    ensures k * ScaledKHz <= r * sampleRate
    ensures 0 < r ==> (r - 1) * sampleRate < k * ScaledKHz
  {
    var a := k * ScaledKHz + sampleRate - 1;
    var r := a / sampleRate;
    assert a == r * sampleRate + a % sampleRate;
    assert (r - 1) * sampleRate == r * sampleRate - sampleRate;
    r
  }

  lemma MulMonotone(a: int, b: int, c: nat)
    requires a <= b
    ensures a * c <= b * c
  {
    assert b * c - a * c == (b - a) * c;
  }

  /** The lowest gridline is row 0, labelled 0 Hz. */
  lemma RowZeroIsGridLine(sampleRate: nat)
    requires 0 < sampleRate
    ensures IsGridLine(sampleRate, 0) && LabelValue(sampleRate, 0) == 0
  {
  }

  /**
   * Walking up one row, the frequency crosses at most one multiple of
   * 1000 Hz (a band is never wider than 1000 Hz), and the row is a
   * gridline exactly when it crosses one.
   */
  lemma {:induction false} GridLineIffNewThousand(sampleRate: nat, i: nat)
    requires 0 < sampleRate <= ScaledKHz && 0 < i
    ensures IsGridLine(sampleRate, i) <==> Thousands(sampleRate, i) == Thousands(sampleRate, i - 1) + 1
    ensures !IsGridLine(sampleRate, i) <==> Thousands(sampleRate, i) == Thousands(sampleRate, i - 1)
  {
    var a := i * sampleRate;
    var b := (i - 1) * sampleRate;
    assert b == a - sampleRate;
    var q, q' := Thousands(sampleRate, i), Thousands(sampleRate, i - 1);
    assert a % ScaledKHz == a - q * ScaledKHz;
    assert q' <= q;
    assert q - 1 <= q';
  }

  /** A gridline row is the lowest row reaching the thousand its label shows. */
  lemma {:induction false} GridLineIsFirstRow(sampleRate: nat, i: nat)
    requires 0 < sampleRate && IsGridLine(sampleRate, i)
    ensures i == FirstRowAtOrAbove(sampleRate, Thousands(sampleRate, i))
  {
    var q := Thousands(sampleRate, i);
    var r := FirstRowAtOrAbove(sampleRate, q);
    assert (i * sampleRate) % ScaledKHz == i * sampleRate - q * ScaledKHz;
    if 0 < i {
      assert (i - 1) * sampleRate == i * sampleRate - sampleRate;
    }
    if i < r {
      MulMonotone(i, r - 1, sampleRate);
    } else if r < i {
      MulMonotone(r, i - 1, sampleRate);
    }
  }

  /** The lowest row reaching k * 1000 Hz is a gridline, and its label reads k * 1000 Hz. */
  lemma {:induction false} FirstRowIsGridLine(sampleRate: nat, k: nat)
    requires 0 < sampleRate <= ScaledKHz
    ensures IsGridLine(sampleRate, FirstRowAtOrAbove(sampleRate, k))
    ensures Thousands(sampleRate, FirstRowAtOrAbove(sampleRate, k)) == k
    ensures LabelValue(sampleRate, FirstRowAtOrAbove(sampleRate, k)) == 1000 * k
  {
    var r := FirstRowAtOrAbove(sampleRate, k);
    if 0 < r {
      assert (r - 1) * sampleRate == r * sampleRate - sampleRate;
    }
    assert r * sampleRate < (k + 1) * ScaledKHz;
    var q := Thousands(sampleRate, r);
    assert q == k;
    assert (r * sampleRate) % ScaledKHz == r * sampleRate - q * ScaledKHz;
  }

  /**
   * Exactly one row carries the gridline for each multiple of 1000 Hz:
   * row i is a gridline labelled k * 1000 Hz if and only if it is the
   * lowest row whose frequency reaches k * 1000 Hz.
   */
  lemma OneGridLinePerThousand(sampleRate: nat, k: nat, i: nat)
    requires 0 < sampleRate <= ScaledKHz
    ensures IsGridLine(sampleRate, i) && LabelValue(sampleRate, i) == 1000 * k
            <==> i == FirstRowAtOrAbove(sampleRate, k)
  {
    FirstRowIsGridLine(sampleRate, k);
    if IsGridLine(sampleRate, i) && LabelValue(sampleRate, i) == 1000 * k {
      GridLineIsFirstRow(sampleRate, i);
    }
  }

  /** Going up the plot, the number of thousands a row reaches never drops. */
  lemma ThousandsMonotone(sampleRate: nat, i: nat, j: nat)
    requires i <= j
    ensures Thousands(sampleRate, i) <= Thousands(sampleRate, j)
  {
    MulMonotone(i, j, sampleRate);
  }

  /** Label values strictly increase from one gridline to the next one up. */
  lemma LabelsIncrease(sampleRate: nat, i: nat, j: nat)
    requires 0 < sampleRate && i < j
    requires IsGridLine(sampleRate, i) && IsGridLine(sampleRate, j)
    ensures LabelValue(sampleRate, i) < LabelValue(sampleRate, j)
  {
    ThousandsMonotone(sampleRate, i, j);
    if Thousands(sampleRate, i) == Thousands(sampleRate, j) {
      GridLineIsFirstRow(sampleRate, i);
      GridLineIsFirstRow(sampleRate, j);
    }
  }

  /**
   * Successive gridlines are 1000 / bandWidth rows apart, to within one
   * row: with d the distance from the gridline for k * 1000 Hz to the one
   * for (k + 1) * 1000 Hz, (d - 1) * bandWidth < 1000 < (d + 1) * bandWidth.
   * When a band is at most 1000 Hz wide the next gridline is strictly higher.
   */
  lemma {:induction false} GridSpacing(sampleRate: nat, k: nat)
    requires 0 < sampleRate
    ensures var d := FirstRowAtOrAbove(sampleRate, k + 1) - FirstRowAtOrAbove(sampleRate, k);
            (d - 1) * sampleRate < ScaledKHz < (d + 1) * sampleRate
    ensures sampleRate <= ScaledKHz ==> FirstRowAtOrAbove(sampleRate, k) < FirstRowAtOrAbove(sampleRate, k + 1)
  {
    var r0, r1 := FirstRowAtOrAbove(sampleRate, k), FirstRowAtOrAbove(sampleRate, k + 1);
    var d := r1 - r0;
    if 0 < r0 {
      assert (r0 - 1) * sampleRate == r0 * sampleRate - sampleRate;
    }
    assert r0 * sampleRate < k * ScaledKHz + sampleRate;
    assert 0 < r1;
    assert (r1 - 1) * sampleRate == r1 * sampleRate - sampleRate;
    assert d * sampleRate == r1 * sampleRate - r0 * sampleRate;
    assert (d - 1) * sampleRate == d * sampleRate - sampleRate;
    assert (d + 1) * sampleRate == d * sampleRate + sampleRate;
    if sampleRate <= ScaledKHz && d <= 0 {
      MulMonotone(d + 1, 1, sampleRate);
    }
  }

  /** The lowest rows reaching successive thousands strictly increase. */
  lemma {:induction false} FirstRowIncreasing(sampleRate: nat, j: nat, k: nat)
    requires 0 < sampleRate <= ScaledKHz && j < k
    ensures FirstRowAtOrAbove(sampleRate, j) < FirstRowAtOrAbove(sampleRate, k)
  {
    var rj, rk := FirstRowAtOrAbove(sampleRate, j), FirstRowAtOrAbove(sampleRate, k);
    if 0 < rj {
      assert (rj - 1) * sampleRate == rj * sampleRate - sampleRate;
    }
    assert rj * sampleRate < j * ScaledKHz + sampleRate;
    if rk <= rj {
      MulMonotone(rk, rj, sampleRate);
    }
  }

  /** Exact division of naturals rounds down to the integer quotient. */
  lemma RealFloorOfRatio(a: nat, b: nat)
    requires 0 < b
    ensures (a as real / b as real).Floor == a / b
  {
    var q, m := a / b, a % b;
    assert a == q * b + m;
    assert a as real == q as real * b as real + m as real;
    assert a as real / b as real == q as real + m as real / b as real;
    assert 0.0 <= m as real / b as real < 1.0;
  }

  /** Row i's real frequency i * bandWidth, and its thousands, in terms of the scaled integer i * sampleRate. */
  lemma RealFrequency(sampleRate: nat, i: nat)
    ensures i as real * (sampleRate as real / FftSize as real) == (i * sampleRate) as real / FftSize as real
    ensures (i * sampleRate) as real / FftSize as real / 1000.0 == (i * sampleRate) as real / ScaledKHz as real
  {
    assert (i * sampleRate) as real == i as real * sampleRate as real;
  }

  /**
   * The integer test agrees with the source's test on the real-valued
   * bandWidth = sampleRate / FftSize, read with exact arithmetic:
   * x % 1000 < bandWidth for x = i * bandWidth, and the label value
   * floor(x / 1000) * 1000.
   */
  lemma {:induction false} RealBandWidthAgrees(sampleRate: nat, i: nat)
    ensures var bandWidth := sampleRate as real / FftSize as real;
            var x := i as real * bandWidth;
            (IsGridLine(sampleRate, i) <==> x - 1000.0 * (x / 1000.0).Floor as real < bandWidth)
            && LabelValue(sampleRate, i) == (x / 1000.0).Floor * 1000
  {
    var a := i * sampleRate;
    var q := Thousands(sampleRate, i);
    var m := a % ScaledKHz;
    RealFrequency(sampleRate, i);
    RealFloorOfRatio(a, ScaledKHz);
    assert a == q * ScaledKHz + m;
    var x := a as real / FftSize as real;
    assert x - 1000.0 * q as real == m as real / FftSize as real;
    assert m < sampleRate <==> m as real / FftSize as real < sampleRate as real / FftSize as real;
  }
}
