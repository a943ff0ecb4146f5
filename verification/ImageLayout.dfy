/** Where the samples of a ping image lie in a message, how wide a sample is, and where the
    conversion to an array puts it. */
module ImageLayout {
  import opened Basics
  import opened Bytes
  import SonarDrivers

  // ---------------------------------------------------------------- sample size, version 1

  /** The image description in the metadata of a ping. */
  datatype Image = Image(dataSize: U8, nRanges: U16, nBeams: U16, imageSize: U32)

  function LineStep(m: Image): U32
    requires m.nRanges > 0
  {
    m.imageSize / m.nRanges
  }

  /** The bytes left for the samples of a line, in 32 bits: without room for the gain the
      subtraction wraps. */
  function SampleBytes(m: Image, gains: bool): U32
    requires m.nRanges > 0
  {
    if gains then (LineStep(m) - 4) % TWO_32 else LineStep(m)
  }

  /** The size deduced when the data size is not one of the four known values: 0 if the image
      does not divide evenly, and cut to 8 bits on return. */
  function Deduced(m: Image, gains: bool): U8
    requires m.nRanges > 0 && (LineStep(m) * m.nRanges == m.imageSize ==> m.nBeams > 0)
  {
    var lineStep := LineStep(m);
    if lineStep * m.nRanges != m.imageSize then 0
    else
      var bytes := SampleBytes(m, gains);
      var sampleSize := bytes / m.nBeams;
      if sampleSize * m.nBeams != bytes then 0 else sampleSize % 0x100
  }

  function SampleSize1(m: Image, gains: bool): U8
    requires m.dataSize > 3 ==> m.nRanges > 0 && (LineStep(m) * m.nRanges == m.imageSize ==> m.nBeams > 0)
  {
    if m.dataSize <= 3 then m.dataSize + 1 else Deduced(m, gains)
  }

  /** Bytes from one range line to the next. */
  function StepOf(nBeams: nat, sampleSize: nat, gains: bool): nat {
    (if gains then 4 else 0) + nBeams * sampleSize
  }

  /** The deduction got past both of its divisibility tests. */
  predicate Divides(m: Image, gains: bool)
    requires m.nRanges > 0 && m.nBeams > 0
  {
    && LineStep(m) * m.nRanges == m.imageSize
    && SampleBytes(m, gains) / m.nBeams * m.nBeams == SampleBytes(m, gains)
  }

  lemma TimesNext(a: nat, n: nat)
    ensures (a + 1) * n == a * n + n && n * (a + 1) == n * a + n
  {
  }

  lemma TimesEqual(a: nat, b: nat, n: nat)
    requires n > 0
    ensures a * n == b * n <==> a == b
    ensures a < b ==> a * n < b * n
  {
    TimesNext(a, n);
    TimesNext(b, n);
    if a < b {
      TimesLe(a + 1, b, n);
    } else if b < a {
      TimesLe(b + 1, a, n);
    }
  }

  /** The step of a line with the size cut to 8 bits, against the length `line` of the line. */
  lemma StepIsLine(line: U32, nBeams: nat, bytes: nat, size: nat, gains: bool)
    requires nBeams > 0 && size * nBeams == bytes
    requires bytes == if gains then (line - 4) % TWO_32 else line
    ensures StepOf(nBeams, size % 0x100, gains) == line <==> (gains ==> line >= 4) && size < 0x100
  {
    Commute(size, nBeams);
    Commute(size % 0x100, nBeams);
    TimesEqual(size % 0x100, size, nBeams);
  }

  lemma Commute(a: nat, b: nat)
    ensures a * b == b * a
  {
  }

  /** A deduced size accounts for the whole image iff the gain subtraction does not wrap and
      the size fits the 8 bits of the return type. */
  lemma DeducedTilesIff(m: Image, gains: bool)
    requires m.dataSize > 3 && m.nRanges > 0 && m.nBeams > 0 && Divides(m, gains)
    ensures StepOf(m.nBeams, SampleSize1(m, gains), gains) * m.nRanges == m.imageSize
       <==> (gains ==> LineStep(m) >= 4) && SampleBytes(m, gains) / m.nBeams < 0x100
  {
    var line, bytes := LineStep(m), SampleBytes(m, gains);
    StepIsLine(line, m.nBeams, bytes, bytes / m.nBeams, gains);
    DeducedIs(m, gains);
    hide StepOf, LineStep, SampleBytes, SampleSize1;
    TimesEqual(StepOf(m.nBeams, SampleSize1(m, gains), gains), line, m.nRanges);
  }

  lemma DeducedIs(m: Image, gains: bool)
    requires m.dataSize > 3 && m.nRanges > 0 && m.nBeams > 0 && Divides(m, gains)
    ensures SampleSize1(m, gains) == SampleBytes(m, gains) / m.nBeams % 0x100
  {
    hide LineStep, SampleBytes;
  }

  // ---------------------------------------------------------------- sample size, version 2

  /** `sample_size` and `has_gains` of a version-2 ping call each other with the same
      arguments. `depth` bounds how deep the calls may nest; None means deeper than that. */
  function SampleSize2(m: Image, depth: nat): Option<U8>
    requires m.nRanges > 0 && m.nBeams > 0
    decreases depth
  {
    if depth == 0 then None
    else if m.dataSize <= 3 then Some(m.dataSize + 1)
    else if LineStep(m) * m.nRanges != m.imageSize then Some(0)
    else
      match HasGains2(m, depth - 1)
      case None => None
      case Some(gains) => Some(Deduced(m, gains))
  }

  function HasGains2(m: Image, depth: nat): Option<bool>
    requires m.nRanges > 0 && m.nBeams > 0
    decreases depth
  {
    if depth == 0 then None
    else
      match SampleSize2(m, depth - 1)
      case None => None
      case Some(size) => Some(m.imageSize > size * m.nBeams * m.nRanges)
  }

  lemma {:induction false} EndlessCalls(m: Image, depth: nat)
    requires m.nRanges > 0 && m.nBeams > 0
    requires m.dataSize > 3 && LineStep(m) * m.nRanges == m.imageSize
    ensures SampleSize2(m, depth).None? && HasGains2(m, depth).None?
    decreases depth
  {
    if depth > 0 {
      EndlessCalls(m, depth - 1);
    }
  }

  predicate SampleEnds(m: Image, depth: nat)
    requires m.nRanges > 0 && m.nBeams > 0
  {
    SampleSize2(m, depth).Some?
  }

  predicate GainsEnd(m: Image, depth: nat)
    requires m.nRanges > 0 && m.nBeams > 0
  {
    HasGains2(m, depth).Some?
  }

  /** The calls come back iff the data size is a known one, or the lines do not divide the
      image evenly, which is noticed before the second function is called. */
  lemma Version2EndsIff(m: Image)
    requires m.nRanges > 0 && m.nBeams > 0
    ensures (exists depth: nat :: SampleEnds(m, depth)) <==> m.dataSize <= 3 || m.imageSize % m.nRanges != 0
    ensures (exists depth: nat :: GainsEnd(m, depth)) <==> m.dataSize <= 3 || m.imageSize % m.nRanges != 0
  {
    assert LineStep(m) * m.nRanges == m.imageSize <==> m.imageSize % m.nRanges == 0;
    if m.dataSize <= 3 || m.imageSize % m.nRanges != 0 {
      assert SampleEnds(m, 1);
      assert GainsEnd(m, 2);
    } else {
      forall depth: nat ensures !SampleEnds(m, depth) && !GainsEnd(m, depth) {
        EndlessCalls(m, depth);
      }
    }
  }

  /** The four known data sizes stand for 8, 16, 24 and 32 bits, in both versions. */
  lemma {:induction false} KnownSizes(m: Image, gains: bool, depth: nat)
    requires m.dataSize <= 3 && m.nRanges > 0 && m.nBeams > 0 && depth > 0
    ensures 8 * SampleSize1(m, gains) == [8, 16, 24, 32][m.dataSize]
    ensures SampleSize2(m, depth) == Some(SampleSize1(m, gains))
  {
  }

  /** For them version 2 tells by the size of the image whether gains were sent, and is right
      for every image that is made of lines. */
  lemma {:induction false} Version2GainsRecognised(m: Image, gains: bool, depth: nat)
    requires m.dataSize <= 3 && m.nRanges > 0 && m.nBeams > 0 && depth > 1
    requires m.imageSize == m.nRanges * StepOf(m.nBeams, SampleSize1(m, gains), gains)
    ensures HasGains2(m, depth) == Some(gains)
  {
    KnownSizes(m, gains, depth - 1);
    var size := SampleSize1(m, gains) as nat;
    LinesWithGains(size, m.nBeams, m.nRanges);
  }

  lemma LinesWithGains(size: nat, nBeams: nat, nRanges: nat)
    ensures nRanges * (nBeams * size) == size * nBeams * nRanges
    ensures nRanges * (4 + nBeams * size) == 4 * nRanges + size * nBeams * nRanges
  {
    Commute(size, nBeams);
    Commute(nBeams * size, nRanges);
  }

  // ---------------------------------------------------------------- where a sample lies

  datatype Layout = Layout(nBeams: nat, nRanges: nat, sampleSize: nat, gains: bool) {
    function GainBytes(): nat {
      if gains then 4 else 0
    }

    function Step(): nat {
      StepOf(nBeams, sampleSize, gains)
    }

    /** Addresses relative to the start of the image, as the Python view computes them. */
    function SampleAddress(h: nat, w: nat): nat {
      GainBytes() + h * Step() + w * sampleSize
    }

    function GainAddress(h: nat): nat {
      h * Step()
    }
  }

  /** A byte of the image: byte `b` of the gain of a line, or of a sample. */
  datatype Slot = GainByte(h: nat, b: nat) | SampleByte(h: nat, w: nat, b: nat)

  predicate IsSlot(l: Layout, s: Slot) {
    match s
    case GainByte(h, b) => l.gains && h < l.nRanges && b < 4
    case SampleByte(h, w, b) => h < l.nRanges && w < l.nBeams && b < l.sampleSize
  }

  function AddressOf(l: Layout, s: Slot): nat {
    match s
    case GainByte(h, b) => l.GainAddress(h) + b
    case SampleByte(h, w, b) => l.SampleAddress(h, w) + b
  }

  function SlotAt(l: Layout, k: nat): Slot
    requires l.nBeams > 0 && l.sampleSize > 0
  {
    StepPositive(l);
    var h, r := k / l.Step(), k % l.Step();
    if r < l.GainBytes() then GainByte(h, r)
    else SampleByte(h, (r - l.GainBytes()) / l.sampleSize, (r - l.GainBytes()) % l.sampleSize)
  }

  lemma StepPositive(l: Layout)
    requires l.nBeams > 0 && l.sampleSize > 0
    ensures l.Step() > 0
  {
    TimesEqual(0, l.nBeams, l.sampleSize);
  }

  lemma DivMod(q: nat, d: nat, r: nat)
    requires r < d
    ensures (q * d + r) / d == q && (q * d + r) % d == r
  {
    var n := q * d + r;
    var k := n / d;
    assert n == k * d + n % d;
    TimesNext(k, d);
    TimesNext(q, d);
    if k < q {
      TimesLe(k + 1, q, d);
    } else if k > q {
      TimesLe(q + 1, k, d);
    }
  }

  lemma RowBound(q: nat, n: nat, d: nat, r: nat)
    requires q < n && r < d
    ensures q * d + r < n * d
  {
    TimesNext(q, d);
    TimesLe(q + 1, n, d);
  }

  lemma RowOf(k: nat, n: nat, d: nat)
    requires d > 0 && k < n * d
    ensures k / d < n && k == k / d * d + k % d
  {
    var q := k / d;
    assert k == q * d + k % d;
    if q >= n {
      TimesLe(n, q, d);
    }
  }

  /** Every byte of the image belongs to a slot ... */
  lemma SlotCovers(l: Layout, k: nat)
    requires l.nBeams > 0 && l.sampleSize > 0 && k < l.nRanges * l.Step()
    ensures IsSlot(l, SlotAt(l, k)) && AddressOf(l, SlotAt(l, k)) == k
  {
    StepPositive(l);
    RowOf(k, l.nRanges, l.Step());
    var r := k % l.Step();
    if r >= l.GainBytes() {
      RowOf(r - l.GainBytes(), l.nBeams, l.sampleSize);
    }
  }

  /** ... and only to one: gains and samples tile the image without overlap. */
  lemma SlotsDisjoint(l: Layout, s: Slot)
    requires l.nBeams > 0 && l.sampleSize > 0 && IsSlot(l, s)
    ensures AddressOf(l, s) < l.nRanges * l.Step() && SlotAt(l, AddressOf(l, s)) == s
  {
    match s
    case GainByte(h, b) => GainSlot(l, h, b);
    case SampleByte(h, w, b) => SampleSlot(l, h, w, b);
  }

  lemma GainSlot(l: Layout, h: nat, b: nat)
    requires l.nBeams > 0 && l.sampleSize > 0 && IsSlot(l, GainByte(h, b))
    ensures var k := AddressOf(l, GainByte(h, b));
            k < l.nRanges * l.Step() && SlotAt(l, k) == GainByte(h, b)
  {
    assert 4 <= l.Step();
    hide StepOf, Layout.Step;
    RowBound(h, l.nRanges, l.Step(), b);
    DivMod(h, l.Step(), b);
  }

  lemma SampleSlot(l: Layout, h: nat, w: nat, b: nat)
    requires l.nBeams > 0 && l.sampleSize > 0 && IsSlot(l, SampleByte(h, w, b))
    ensures var k := AddressOf(l, SampleByte(h, w, b));
            k < l.nRanges * l.Step() && SlotAt(l, k) == SampleByte(h, w, b)
  {
    RowBound(w, l.nBeams, l.sampleSize, b);
    var p := w * l.sampleSize + b;
    assert l.GainBytes() + p < l.Step();
    hide StepOf, Layout.Step;
    RowBound(h, l.nRanges, l.Step(), l.GainBytes() + p);
    DivMod(h, l.Step(), l.GainBytes() + p);
    DivMod(w, l.sampleSize, b);
    assert AddressOf(l, SampleByte(h, w, b)) == h * l.Step() + (l.GainBytes() + p);
  }

  /** An image whose size the deduction accounts for is tiled exactly: the slots are its bytes. */
  lemma DeducedImageIsTiled(m: Image, gains: bool, k: nat)
    requires m.dataSize > 3 && m.nRanges > 0 && m.nBeams > 0 && Divides(m, gains)
    requires (gains ==> LineStep(m) >= 4) && SampleBytes(m, gains) / m.nBeams < 0x100
    requires SampleSize1(m, gains) > 0
    ensures var l := Layout(m.nBeams, m.nRanges, SampleSize1(m, gains), gains);
            k < m.imageSize <==> exists s :: IsSlot(l, s) && AddressOf(l, s) == k
  {
    var l := Layout(m.nBeams, m.nRanges, SampleSize1(m, gains), gains);
    DeducedTilesIff(m, gains);
    assert l.nRanges * l.Step() == m.imageSize;
    if k < m.imageSize {
      SlotCovers(l, k);
    }
    if s :| IsSlot(l, s) && AddressOf(l, s) == k {
      SlotsDisjoint(l, s);
    }
  }

  /** The raw view counts in samples and keeps the width of a line in 16 bits. It has the line
      step of the message iff that width does not wrap. */
  lemma RawViewStepIff(l: Layout)
    requires l.sampleSize == 1 || l.sampleSize == 2 || l.sampleSize == 4
    requires l.nBeams < 0x1_0000
    ensures var width := (l.nBeams + l.GainBytes() / l.sampleSize) % 0x1_0000;
            width * l.sampleSize == l.Step() <==> l.nBeams + l.GainBytes() / l.sampleSize < 0x1_0000
  {
  }

  // ---------------------------------------------------------------- where a sample goes

  /** The index that the conversion writes when gains are sent. */
  function GainIndex(nBeams: nat, h: nat, w: nat): nat {
    nBeams * w + h
  }

  /** The documented index: a row is the set of bearings at one range. */
  function RowMajor(nBeams: nat, h: nat, w: nat): nat {
    nBeams * h + w
  }

  predicate IndexInBounds(nBeams: nat, nRanges: nat) {
    forall h: nat, w: nat :: h < nRanges && w < nBeams ==> GainIndex(nBeams, h, w) < nBeams * nRanges
  }

  predicate IndexInjective(nBeams: nat, nRanges: nat) {
    forall h: nat, w: nat, h': nat, w': nat ::
      (h < nRanges && w < nBeams && h' < nRanges && w' < nBeams
       && GainIndex(nBeams, h, w) == GainIndex(nBeams, h', w')) ==> h == h' && w == w'
  }

  predicate Hits(nBeams: nat, nRanges: nat, k: nat) {
    exists h: nat, w: nat :: h < nRanges && w < nBeams && GainIndex(nBeams, h, w) == k
  }

  predicate IndexOnto(nBeams: nat, nRanges: nat) {
    forall k: nat :: k < nBeams * nRanges ==> Hits(nBeams, nRanges, k)
  }

  lemma InBoundsIff(nBeams: nat, nRanges: nat)
    requires nBeams > 0 && nRanges > 0
    ensures IndexInBounds(nBeams, nRanges) <==> nBeams == 1 || nBeams <= nRanges
  {
    if nBeams == 1 || nBeams <= nRanges {
      forall h: nat, w: nat | h < nRanges && w < nBeams ensures GainIndex(nBeams, h, w) < nBeams * nRanges {
        StaysInBounds(nBeams, nRanges, h, w);
      }
    } else {
      LeavesBounds(nBeams, nRanges);
      assert GainIndex(nBeams, 0, nRanges) >= nBeams * nRanges;
    }
  }

  lemma StaysInBounds(nBeams: nat, nRanges: nat, h: nat, w: nat)
    requires h < nRanges && w < nBeams && (nBeams == 1 || nBeams <= nRanges)
    ensures GainIndex(nBeams, h, w) < nBeams * nRanges
  {
    if nBeams > 1 {
      var d := nRanges - nBeams;
      TimesLe(w, nBeams - 1, nBeams);
      TimesNext(nBeams - 1, nBeams);
      TimesLe(1, nBeams, d);
      assert nBeams * nRanges == nBeams * nBeams + nBeams * d;
    } else {
      assert w == 0;
    }
  }

  lemma LeavesBounds(nBeams: nat, nRanges: nat)
    requires nBeams > nRanges
    ensures nRanges < nBeams && GainIndex(nBeams, 0, nRanges) == nBeams * nRanges
  {
  }

  lemma InjectiveIff(nBeams: nat, nRanges: nat)
    requires nBeams > 0 && nRanges > 0
    ensures IndexInjective(nBeams, nRanges) <==> nBeams == 1 || nRanges <= nBeams
  {
    if nBeams == 1 || nRanges <= nBeams {
      forall h: nat, w: nat, h': nat, w': nat |
        h < nRanges && w < nBeams && h' < nRanges && w' < nBeams && GainIndex(nBeams, h, w) == GainIndex(nBeams, h', w')
        ensures h == h' && w == w'
      {
        if nBeams > 1 {
          DivMod(w, nBeams, h);
          DivMod(w', nBeams, h');
          assert nBeams * w == w * nBeams && nBeams * w' == w' * nBeams;
        }
      }
    } else {
      assert GainIndex(nBeams, nBeams, 0) == GainIndex(nBeams, 0, 1);
    }
  }

  lemma HitAt(nBeams: nat, nRanges: nat, k: nat)
    requires (nBeams == 1 || nBeams == nRanges) && k < nBeams * nRanges
    ensures Hits(nBeams, nRanges, k)
  {
    if nBeams == 1 {
      assert GainIndex(1, k, 0) == k;
    } else {
      RowOf(k, nRanges, nBeams);
      assert nBeams * (k / nBeams) == k / nBeams * nBeams;
      assert GainIndex(nBeams, k % nBeams, k / nBeams) == k;
    }
  }

  lemma PermutationIff(nBeams: nat, nRanges: nat)
    requires nBeams > 0 && nRanges > 0
    ensures IndexInBounds(nBeams, nRanges) && IndexInjective(nBeams, nRanges) && IndexOnto(nBeams, nRanges)
       <==> nBeams == 1 || nBeams == nRanges
  {
    hide IndexInBounds, IndexInjective, Hits;
    InBoundsIff(nBeams, nRanges);
    InjectiveIff(nBeams, nRanges);
    if nBeams == 1 || nBeams == nRanges {
      forall k: nat | k < nBeams * nRanges ensures Hits(nBeams, nRanges, k) {
        HitAt(nBeams, nRanges, k);
      }
    }
  }

  /** The index written with gains is the documented one only for a single beam. */
  lemma RowMajorIffOneBeam(nBeams: nat, nRanges: nat)
    requires nBeams > 0 && nRanges > 0
    ensures (forall h: nat, w: nat :: h < nRanges && w < nBeams ==> GainIndex(nBeams, h, w) == RowMajor(nBeams, h, w))
       <==> nBeams == 1
  {
    if nBeams > 1 {
      assert GainIndex(nBeams, 0, 1) != RowMajor(nBeams, 0, 1);
    }
  }

  // ---------------------------------------------------------------- the conversion

  /** A sample of one or two bytes. */
  function SampleAt(data: seq<Byte>, at: nat, sampleSize: nat): int
    requires (sampleSize == 1 || sampleSize == 2) && at + sampleSize <= |data|
  {
    if sampleSize == 2 then Load16(data, at) else data[at]
  }

  /** The image fits the message from `offset` on. */
  predicate Holds(data: seq<Byte>, offset: nat, l: Layout) {
    (l.sampleSize == 1 || l.sampleSize == 2) && offset + l.nRanges * l.Step() <= |data|
  }

  lemma SampleInside(data: seq<Byte>, offset: nat, l: Layout, h: nat, w: nat)
    requires Holds(data, offset, l) && h < l.nRanges && w < l.nBeams
    ensures offset + l.SampleAddress(h, w) + l.sampleSize <= |data|
    ensures offset + l.GainAddress(h) + l.GainBytes() <= |data|
  {
    SlotsDisjoint(l, SampleByte(h, w, l.sampleSize - 1));
  }

  /** The compensated sample, at the addresses of the Python view. `gain` stands for the
      inverse square root of the gain word. */
  function Compensated(data: seq<Byte>, offset: nat, l: Layout, gain: U32 -> real, h: nat, w: nat): real
    requires Holds(data, offset, l) && l.gains && h < l.nRanges && w < l.nBeams
  {
    SampleInside(data, offset, l, h, w);
    gain(Load32(data, offset + l.GainAddress(h))) * SampleAt(data, offset + l.SampleAddress(h, w), l.sampleSize) as real
  }

  /** A later row can reach the cell of an earlier one only from a beam other than the first,
      and only a whole number of beams further on. */
  lemma NoClobber(nBeams: nat, h: nat, w: nat, h': nat, w': nat)
    requires h' < h && (w' == 0 || h < h' + nBeams)
    ensures GainIndex(nBeams, h, w) != GainIndex(nBeams, h', w')
  {
    TimesNext(w, nBeams);
    if w' <= w {
      TimesLe(w', w, nBeams);
    } else {
      TimesLe(w + 1, w', nBeams);
    }
  }

  lemma SameRow(nBeams: nat, h: nat, w: nat, w': nat)
    requires w' < w && nBeams > 0
    ensures GainIndex(nBeams, h, w) != GainIndex(nBeams, h, w')
  {
    TimesNext(w', nBeams);
    TimesLe(w' + 1, w, nBeams);
  }

  /** Cell (h, w) is not written again by a row below `rows`. */
  predicate Survives(nBeams: nat, rows: nat, h: nat, w: nat) {
    w == 0 || rows <= h + nBeams
  }

  /** The condition is exact: a sample that does not survive is overwritten by the one of the
      beam before, `nBeams` lines further on. */
  lemma OverwrittenUnlessSurvives(nBeams: nat, nRanges: nat, h: nat, w: nat)
    requires h < nRanges && w < nBeams
    ensures !Survives(nBeams, nRanges, h, w) <==>
              (h + nBeams < nRanges && w > 0 && GainIndex(nBeams, h + nBeams, w - 1) == GainIndex(nBeams, h, w))
    ensures Survives(nBeams, nRanges, h, w) ==>
              forall h': nat, w': nat ::
                h < h' < nRanges && w' < nBeams ==> GainIndex(nBeams, h', w') != GainIndex(nBeams, h, w)
  {
    if w > 0 {
      TimesNext(w - 1, nBeams);
    }
    if Survives(nBeams, nRanges, h, w) {
      forall h': nat, w': nat | h < h' < nRanges && w' < nBeams
        ensures GainIndex(nBeams, h', w') != GainIndex(nBeams, h, w)
      {
        NoClobber(nBeams, h', w', h, w);
      }
    }
  }

  /** The rows below `done` are in the array where no row below `upTo` overwrites them. */
  predicate RowsDone(cells: seq<real>, data: seq<Byte>, offset: nat, l: Layout, gain: U32 -> real, done: nat, upTo: nat)
    requires Holds(data, offset, l) && l.gains && done <= l.nRanges
  {
    forall h: nat, w: nat :: (h < done && w < l.nBeams && Survives(l.nBeams, upTo, h, w)) ==>
      (GainIndex(l.nBeams, h, w) < |cells|
       && cells[GainIndex(l.nBeams, h, w)] == Compensated(data, offset, l, gain, h, w))
  }

  /** The first `n` samples of row `h` are in the array. */
  predicate RowPart(cells: seq<real>, data: seq<Byte>, offset: nat, l: Layout, gain: U32 -> real, h: nat, n: nat)
    requires Holds(data, offset, l) && l.gains && h < l.nRanges && n <= l.nBeams
  {
    forall w: nat :: w < n ==>
      (GainIndex(l.nBeams, h, w) < |cells|
       && cells[GainIndex(l.nBeams, h, w)] == Compensated(data, offset, l, gain, h, w))
  }

  lemma WriteKeepsRows(cells: seq<real>, x: real, data: seq<Byte>, offset: nat, l: Layout, gain: U32 -> real,
                       h: nat, w: nat)
    requires Holds(data, offset, l) && l.gains && h < l.nRanges && w < l.nBeams
    requires GainIndex(l.nBeams, h, w) < |cells| && x == Compensated(data, offset, l, gain, h, w)
    requires RowsDone(cells, data, offset, l, gain, h, h + 1) && RowPart(cells, data, offset, l, gain, h, w)
    ensures var after := cells[GainIndex(l.nBeams, h, w) := x];
            RowsDone(after, data, offset, l, gain, h, h + 1) && RowPart(after, data, offset, l, gain, h, w + 1)
  {
    hide Compensated, GainIndex, Holds;
    var after := cells[GainIndex(l.nBeams, h, w) := x];
    forall h': nat, w': nat | h' < h && w' < l.nBeams && Survives(l.nBeams, h + 1, h', w')
      ensures GainIndex(l.nBeams, h', w') < |after|
              && after[GainIndex(l.nBeams, h', w')] == Compensated(data, offset, l, gain, h', w')
    {
      NoClobber(l.nBeams, h, w, h', w');
    }
    forall w': nat | w' < w + 1
      ensures GainIndex(l.nBeams, h, w') < |after|
              && after[GainIndex(l.nBeams, h, w')] == Compensated(data, offset, l, gain, h, w')
    {
      if w' < w {
        SameRow(l.nBeams, h, w, w');
      }
    }
  }

  /** One line: past the gain word, then a write for each sample. False stands for a write
      outside the array. */
  method WriteRow(dst: array<real>, data: seq<Byte>, p: nat, offset: nat, l: Layout, gain: U32 -> real, h: nat)
    returns (inBounds: bool, q: nat)
    requires Holds(data, offset, l) && l.gains && h < l.nRanges
    requires p == offset + l.GainAddress(h)
    requires RowsDone(dst[..], data, offset, l, gain, h, h)
    modifies dst
    ensures inBounds ==> q == offset + l.GainAddress(h + 1)
    ensures inBounds ==> RowsDone(dst[..], data, offset, l, gain, h + 1, h + 1)
    ensures inBounds <==> forall w: nat :: w < l.nBeams ==> GainIndex(l.nBeams, h, w) < dst.Length
  {
    hide Compensated, Holds, RowsDone, RowPart, SampleAt, Load32, GainIndex;
    GainInside(data, offset, l, h);
    RowStarts(dst[..], data, offset, l, gain, h);
    var g := gain(Load32(data, p));
    q := p + 4;
    var w := 0;
    while w < l.nBeams
      invariant w <= l.nBeams
      invariant forall v: nat :: v < w ==> GainIndex(l.nBeams, h, v) < dst.Length
      invariant RowsDone(dst[..], data, offset, l, gain, h, h + 1)
      invariant RowPart(dst[..], data, offset, l, gain, h, w)
    {
      if GainIndex(l.nBeams, h, w) >= dst.Length {
        return false, q;
      }
      CompensatedIs(data, offset, l, gain, h, w);
      var x := g * SampleAt(data, q + w * l.sampleSize, l.sampleSize) as real;
      WriteKeepsRows(dst[..], x, data, offset, l, gain, h, w);
      ghost var cells := dst[..];
      dst[GainIndex(l.nBeams, h, w)] := x;
      assert dst[..] == cells[GainIndex(l.nBeams, h, w) := x];
      w := w + 1;
    }
    RowEnds(dst[..], data, offset, l, gain, h);
    q := q + l.nBeams * l.sampleSize;
    TimesNext(h, l.Step());
    return true, q;
  }

  lemma GainInside(data: seq<Byte>, offset: nat, l: Layout, h: nat)
    requires Holds(data, offset, l) && l.gains && h < l.nRanges
    ensures offset + l.GainAddress(h) + 4 <= |data| && (l.sampleSize == 1 || l.sampleSize == 2)
  {
    RowBound(h, l.nRanges, l.Step(), 3);
  }

  lemma RowStarts(cells: seq<real>, data: seq<Byte>, offset: nat, l: Layout, gain: U32 -> real, h: nat)
    requires Holds(data, offset, l) && l.gains && h < l.nRanges && RowsDone(cells, data, offset, l, gain, h, h)
    ensures RowsDone(cells, data, offset, l, gain, h, h + 1) && RowPart(cells, data, offset, l, gain, h, 0)
  {
    hide Compensated, GainIndex, Holds;
  }

  lemma RowEnds(cells: seq<real>, data: seq<Byte>, offset: nat, l: Layout, gain: U32 -> real, h: nat)
    requires Holds(data, offset, l) && l.gains && h < l.nRanges
    requires RowsDone(cells, data, offset, l, gain, h, h + 1) && RowPart(cells, data, offset, l, gain, h, l.nBeams)
    ensures RowsDone(cells, data, offset, l, gain, h + 1, h + 1)
  {
    hide Compensated, GainIndex, Holds;
  }

  lemma CompensatedIs(data: seq<Byte>, offset: nat, l: Layout, gain: U32 -> real, h: nat, w: nat)
    requires Holds(data, offset, l) && l.gains && h < l.nRanges && w < l.nBeams
    ensures offset + l.GainAddress(h) + 4 <= |data|
    ensures offset + l.GainAddress(h) + 4 + w * l.sampleSize + l.sampleSize <= |data|
    ensures Compensated(data, offset, l, gain, h, w)
         == gain(Load32(data, offset + l.GainAddress(h)))
            * SampleAt(data, offset + l.GainAddress(h) + 4 + w * l.sampleSize, l.sampleSize) as real
  {
    SampleInside(data, offset, l, h, w);
  }

  /** The last index the walk writes is inside an array of this length, or it writes none. */
  predicate LastInside(nBeams: nat, nRanges: nat, length: nat) {
    nBeams == 0 || nRanges == 0 || GainIndex(nBeams, nRanges - 1, nBeams - 1) < length
  }

  /** In an array of exactly the documented size that is a matter of the dimensions alone. */
  lemma LastInsideIff(nBeams: nat, nRanges: nat)
    ensures LastInside(nBeams, nRanges, nBeams * nRanges) <==> nBeams <= 1 || nRanges == 0 || nBeams <= nRanges
  {
    if nBeams > 0 && nRanges > 0 {
      if nBeams == 1 || nBeams <= nRanges {
        StaysInBounds(nBeams, nRanges, nRanges - 1, nBeams - 1);
      } else {
        LeavesBounds(nBeams, nRanges);
        TimesLe(nRanges, nBeams - 1, nBeams);
      }
    }
  }

  /** The walk over a message with gains, line by line. */
  method WriteCompensated(dst: array<real>, data: seq<Byte>, offset: nat, l: Layout, gain: U32 -> real)
    returns (inBounds: bool)
    requires Holds(data, offset, l) && l.gains
    modifies dst
    ensures inBounds <==> LastInside(l.nBeams, l.nRanges, dst.Length)
    ensures inBounds ==> RowsDone(dst[..], data, offset, l, gain, l.nRanges, l.nRanges)
  {
    var p := offset;
    var h := 0;
    while h < l.nRanges
      invariant h <= l.nRanges && p == offset + l.GainAddress(h)
      invariant LastInside(l.nBeams, h, dst.Length)
      invariant RowsDone(dst[..], data, offset, l, gain, h, h)
    {
      var ok, q := WriteRow(dst, data, p, offset, l, gain, h);
      RowInside(l.nBeams, l.nRanges, h, dst.Length);
      if !ok {
        return false;
      }
      p := q;
      h := h + 1;
    }
    return true;
  }

  /** A row stays inside the array iff its last index does, and the last row reaches furthest. */
  lemma RowInside(nBeams: nat, nRanges: nat, h: nat, length: nat)
    requires h < nRanges
    ensures LastInside(nBeams, h + 1, length)
       <==> (forall w: nat :: w < nBeams ==> GainIndex(nBeams, h, w) < length)
    ensures LastInside(nBeams, nRanges, length) ==> LastInside(nBeams, h + 1, length)
  {
    if LastInside(nBeams, h + 1, length) {
      forall w: nat | w < nBeams ensures GainIndex(nBeams, h, w) < length {
        TimesLe(w, nBeams - 1, nBeams);
      }
    }
  }

  /** Every sample, at the address of the Python view, is in its documented place. */
  predicate CopiedRowMajor(cells: seq<real>, data: seq<Byte>, offset: nat, l: Layout)
    requires l.sampleSize == 1 || l.sampleSize == 2
  {
    forall h: nat, w: nat :: (h < l.nRanges && w < l.nBeams) ==>
      (RowMajor(l.nBeams, h, w) < |cells|
       && offset + l.SampleAddress(h, w) + l.sampleSize <= |data|
       && cells[RowMajor(l.nBeams, h, w)] == SampleAt(data, offset + l.SampleAddress(h, w), l.sampleSize) as real)
  }

  /** The first `n` samples are in the array, one after the other. */
  predicate FlatPart(cells: seq<real>, data: seq<Byte>, offset: nat, l: Layout, n: nat)
    requires l.sampleSize == 1 || l.sampleSize == 2
  {
    forall k: nat :: k < n ==>
      (k < |cells| && offset + k * l.sampleSize + l.sampleSize <= |data|
       && cells[k] == SampleAt(data, offset + k * l.sampleSize, l.sampleSize) as real)
  }

  /** Without gains the samples are copied one after the other. */
  method CopySamples(dst: array<real>, data: seq<Byte>, offset: nat, l: Layout)
    requires Holds(data, offset, l) && !l.gains && dst.Length >= l.nBeams * l.nRanges
    modifies dst
    ensures CopiedRowMajor(dst[..], data, offset, l)
    ensures dst[l.nBeams * l.nRanges..] == old(dst[l.nBeams * l.nRanges..])
  {
    hide FlatPart, CopiedRowMajor, SampleAt;
    var n := l.nBeams * l.nRanges;
    var i := 0;
    FlatNone(dst[..], data, offset, l);
    while i < n
      invariant i <= n
      invariant FlatPart(dst[..], data, offset, l, i)
      invariant dst[n..] == old(dst[n..])
    {
      FlatInside(data, offset, l, i);
      var x := SampleAt(data, offset + i * l.sampleSize, l.sampleSize) as real;
      FlatNext(dst[..], x, data, offset, l, i);
      ghost var cells := dst[..];
      dst[i] := x;
      assert dst[..] == cells[i := x];
      i := i + 1;
    }
    FlatDone(dst[..], data, offset, l);
  }

  lemma FlatNone(cells: seq<real>, data: seq<Byte>, offset: nat, l: Layout)
    requires l.sampleSize == 1 || l.sampleSize == 2
    ensures FlatPart(cells, data, offset, l, 0)
  {
  }

  lemma FlatNext(cells: seq<real>, x: real, data: seq<Byte>, offset: nat, l: Layout, i: nat)
    requires l.sampleSize == 1 || l.sampleSize == 2
    requires FlatPart(cells, data, offset, l, i) && i < |cells|
    requires offset + i * l.sampleSize + l.sampleSize <= |data|
    requires x == SampleAt(data, offset + i * l.sampleSize, l.sampleSize) as real
    ensures FlatPart(cells[i := x], data, offset, l, i + 1)
  {
    hide SampleAt;
  }

  lemma FlatAt(cells: seq<real>, data: seq<Byte>, offset: nat, l: Layout, h: nat, w: nat)
    requires (l.sampleSize == 1 || l.sampleSize == 2) && !l.gains && h < l.nRanges && w < l.nBeams
    requires FlatPart(cells, data, offset, l, l.nBeams * l.nRanges)
    ensures RowMajor(l.nBeams, h, w) < |cells|
    ensures offset + l.SampleAddress(h, w) + l.sampleSize <= |data|
    ensures cells[RowMajor(l.nBeams, h, w)] == SampleAt(data, offset + l.SampleAddress(h, w), l.sampleSize) as real
  {
    hide SampleAt, RowMajor, Layout.SampleAddress;
    FlatIsRowMajor(l, h, w);
    var k := RowMajor(l.nBeams, h, w);
    assert cells[k] == SampleAt(data, offset + k * l.sampleSize, l.sampleSize) as real;
  }

  lemma FlatDone(cells: seq<real>, data: seq<Byte>, offset: nat, l: Layout)
    requires (l.sampleSize == 1 || l.sampleSize == 2) && !l.gains
    requires FlatPart(cells, data, offset, l, l.nBeams * l.nRanges)
    ensures CopiedRowMajor(cells, data, offset, l)
  {
    hide SampleAt, FlatPart, RowMajor, Layout.SampleAddress;
    forall h: nat, w: nat | h < l.nRanges && w < l.nBeams
      ensures RowMajor(l.nBeams, h, w) < |cells|
              && offset + l.SampleAddress(h, w) + l.sampleSize <= |data|
              && cells[RowMajor(l.nBeams, h, w)] == SampleAt(data, offset + l.SampleAddress(h, w), l.sampleSize) as real
    {
      FlatAt(cells, data, offset, l, h, w);
    }
  }

  lemma FlatInside(data: seq<Byte>, offset: nat, l: Layout, i: nat)
    requires Holds(data, offset, l) && !l.gains && i < l.nBeams * l.nRanges
    ensures offset + i * l.sampleSize + l.sampleSize <= |data|
  {
    assert l.nRanges * l.Step() == l.nBeams * l.nRanges * l.sampleSize;
    RowBound(i, l.nBeams * l.nRanges, l.sampleSize, l.sampleSize - 1);
  }

  lemma FlatIsRowMajor(l: Layout, h: nat, w: nat)
    requires !l.gains && h < l.nRanges && w < l.nBeams
    ensures RowMajor(l.nBeams, h, w) < l.nBeams * l.nRanges
    ensures RowMajor(l.nBeams, h, w) * l.sampleSize == l.SampleAddress(h, w)
  {
    RowBound(h, l.nRanges, l.nBeams, w);
    assert (l.nBeams * h + w) * l.sampleSize == h * (l.nBeams * l.sampleSize) + w * l.sampleSize;
  }

  /** Bit 1 of the flags: 16-bit data; bit 2: gains are sent. */
  function FlagLayout(nBeams: U16, nRanges: U16, flags: U8): Layout {
    Layout(nBeams, nRanges, if flags / 2 % 2 == 1 then 2 else 1, flags / 4 % 2 == 1)
  }

  function Value(data: seq<Byte>, at: nat, wide: bool): int
    requires at + (if wide then 2 else 1) <= |data|
  {
    var low: int, high: int := data[at], if wide then data[at + 1] else 0;
    low + 0x100 * high
  }

  /** The cell of beam `w` in row `h` holds sample number `nBeams * h + w`, of two little-endian
      bytes if `wide`, else of one. */
  predicate PlainCell(cells: seq<real>, data: seq<Byte>, offset: nat, nBeams: nat, wide: bool, h: nat, w: nat) {
    var cell := nBeams * h + w;
    var at := offset + cell * if wide then 2 else 1;
    && cell < |cells| && at + (if wide then 2 else 1) <= |data|
    && cells[cell] == Value(data, at, wide) as real
  }

  /** Each line is a gain word and its samples; cell `nBeams * w + h` holds sample `w` of line `h`
      times what `gain` makes of the word. */
  predicate GainCell(cells: seq<real>, data: seq<Byte>, offset: nat, nBeams: nat, wide: bool, gain: U32 -> real,
                     h: nat, w: nat)
  {
    var size := if wide then 2 else 1;
    var line := offset + h * (4 + nBeams * size);
    var at := line + 4 + w * size;
    && nBeams * w + h < |cells| && at + size <= |data|
    && cells[nBeams * w + h] == gain(Load32(data, line)) * Value(data, at, wide) as real
  }

  predicate PlainCells(cells: seq<real>, data: seq<Byte>, offset: nat, nBeams: nat, nRanges: nat, wide: bool) {
    forall h: nat, w: nat :: (h < nRanges && w < nBeams) ==> PlainCell(cells, data, offset, nBeams, wide, h, w)
  }

  /** ... in every cell that no later line overwrites. */
  predicate GainCells(cells: seq<real>, data: seq<Byte>, offset: nat, nBeams: nat, nRanges: nat, wide: bool,
                      gain: U32 -> real)
  {
    forall h: nat, w: nat :: (h < nRanges && w < nBeams && (w == 0 || nRanges <= h + nBeams)) ==>
      GainCell(cells, data, offset, nBeams, wide, gain, h, w)
  }

  lemma PlainCellIs(cells: seq<real>, data: seq<Byte>, offset: nat, l: Layout, h: nat, w: nat)
    requires (l.sampleSize == 1 || l.sampleSize == 2) && !l.gains && h < l.nRanges && w < l.nBeams
    requires CopiedRowMajor(cells, data, offset, l)
    ensures PlainCell(cells, data, offset, l.nBeams, l.sampleSize == 2, h, w)
  {
    FlatIsRowMajor(l, h, w);
    hide Layout.SampleAddress;
    assert RowMajor(l.nBeams, h, w) * l.sampleSize == l.SampleAddress(h, w);
  }

  lemma GainCellIs(cells: seq<real>, data: seq<Byte>, offset: nat, l: Layout, gain: U32 -> real, h: nat, w: nat)
    requires Holds(data, offset, l) && l.gains && h < l.nRanges && w < l.nBeams
    requires RowsDone(cells, data, offset, l, gain, l.nRanges, l.nRanges) && Survives(l.nBeams, l.nRanges, h, w)
    ensures GainCell(cells, data, offset, l.nBeams, l.sampleSize == 2, gain, h, w)
  {
    CompensatedIs(data, offset, l, gain, h, w);
    assert l.GainAddress(h) == h * (4 + l.nBeams * l.sampleSize);
    hide Load32, Compensated, Holds, Layout.GainAddress;
    assert cells[GainIndex(l.nBeams, h, w)] == Compensated(data, offset, l, gain, h, w);
  }

  /** The template over both result types and both sample widths: the flags of the fire
      message decide. False stands for a write outside the array. */
  method PingDataToArray(dst: array<real>, data: seq<Byte>, imageOffset: nat, nBeams: U16, nRanges: U16, flags: U8,
                         gain: U32 -> real)
    returns (inBounds: bool)
    requires imageOffset + nRanges * ((if flags / 4 % 2 == 1 then 4 else 0)
                                      + nBeams * (if flags / 2 % 2 == 1 then 2 else 1)) <= |data|
    requires dst.Length >= nBeams * nRanges
    modifies dst
    ensures flags / 4 % 2 == 0 ==>
      inBounds && PlainCells(dst[..], data, imageOffset, nBeams, nRanges, flags / 2 % 2 == 1)
    ensures flags / 4 % 2 == 1 ==>
      (inBounds <==> nBeams == 0 || nRanges == 0 || nBeams * (nBeams - 1) + nRanges - 1 < dst.Length)
    ensures flags / 4 % 2 == 1 && dst.Length == nBeams * nRanges ==>
      (inBounds <==> nBeams <= 1 || nRanges == 0 || nBeams <= nRanges)
    ensures flags / 4 % 2 == 1 && inBounds ==>
      GainCells(dst[..], data, imageOffset, nBeams, nRanges, flags / 2 % 2 == 1, gain)
  {
    var l := FlagLayout(nBeams, nRanges, flags);
    FlagsHold(data, imageOffset, nBeams, nRanges, flags);
    hide Holds, CopiedRowMajor, RowsDone, PlainCells, GainCells;
    if l.gains {
      inBounds := WriteCompensated(dst, data, imageOffset, l, gain);
      LastInsideIff(nBeams, nRanges);
      if inBounds {
        GainCellsAre(dst[..], data, imageOffset, l, gain);
      }
    } else {
      CopySamples(dst, data, imageOffset, l);
      inBounds := true;
      PlainCellsAre(dst[..], data, imageOffset, l);
    }
  }

  lemma PlainCellsAre(cells: seq<real>, data: seq<Byte>, offset: nat, l: Layout)
    requires (l.sampleSize == 1 || l.sampleSize == 2) && !l.gains && CopiedRowMajor(cells, data, offset, l)
    ensures PlainCells(cells, data, offset, l.nBeams, l.nRanges, l.sampleSize == 2)
  {
    hide CopiedRowMajor, PlainCell;
    var wide := l.sampleSize == 2;
    forall h: nat, w: nat | h < l.nRanges && w < l.nBeams ensures PlainCell(cells, data, offset, l.nBeams, wide, h, w) {
      PlainCellIs(cells, data, offset, l, h, w);
    }
  }

  lemma GainCellsAre(cells: seq<real>, data: seq<Byte>, offset: nat, l: Layout, gain: U32 -> real)
    requires Holds(data, offset, l) && l.gains && RowsDone(cells, data, offset, l, gain, l.nRanges, l.nRanges)
    ensures GainCells(cells, data, offset, l.nBeams, l.nRanges, l.sampleSize == 2, gain)
  {
    hide Holds, RowsDone, GainCell;
    var wide := l.sampleSize == 2;
    forall h: nat, w: nat | h < l.nRanges && w < l.nBeams && (w == 0 || l.nRanges <= h + l.nBeams)
      ensures GainCell(cells, data, offset, l.nBeams, wide, gain, h, w)
    {
      GainCellIs(cells, data, offset, l, gain, h, w);
    }
  }

  lemma FlagsHold(data: seq<Byte>, offset: nat, nBeams: U16, nRanges: U16, flags: U8)
    requires offset + nRanges * ((if flags / 4 % 2 == 1 then 4 else 0)
                                 + nBeams * (if flags / 2 % 2 == 1 then 2 else 1)) <= |data|
    ensures Holds(data, offset, FlagLayout(nBeams, nRanges, flags))
  {
  }

  /** Every request the driver sends asks for gains, whatever flags it is given, and leaves the
      other flags alone; so the image that comes back under the flags asked for is compensated,
      with the sample width asked for. */
  lemma AskedFlagsBringGains(request: SonarDrivers.Config, nBeams: U16, nRanges: U16)
    ensures var flags := SonarDrivers.Asked(request).flags;
            && flags / 4 % 2 == 1 && flags % 4 == request.flags % 4 && flags / 8 == request.flags / 8
            && FlagLayout(nBeams, nRanges, flags)
               == Layout(nBeams, nRanges, if request.flags / 2 % 2 == 1 then 2 else 1, true)
  {
    GainFlag(request.flags);
    hide SonarDrivers.WithGains;
  }

  lemma GainFlag(flags: U8)
    ensures var f := SonarDrivers.WithGains(flags);
            f / 4 % 2 == 1 && f % 4 == flags % 4 && f / 8 == flags / 8 && f / 2 % 2 == flags / 2 % 2
  {
    var low, high := flags % 4, flags / 8;
    assert flags == 8 * high + 4 * (flags / 4 % 2) + low;
  }
}
