/**
  The DSi cameras (src/DSi_Camera.cpp): a captured frame of 640x480 is handed out line by line,
  scaled down to the size that is set, without dividing for each word.
*/
module Camera {
  import opened Bits

  const SOURCE_WIDTH: nat := 640
  const SOURCE_WORDS: nat := 320
  const SOURCE_LINES: nat := 480

  // Two pixels: each has its own brightness, and they share their colour.
  datatype Word = Word(y1: Byte, u: Byte, y2: Byte, v: Byte)

  function Mirrored(w: Word): Word { Word(w.y2, w.u, w.y1, w.v) }

  predicate Supported(width: nat, height: nat) {
    2 <= width <= SOURCE_WIDTH && 2 <= height <= SOURCE_LINES && width % 2 == 0
  }

  // -------- across a line --------

  // The source word of an output word.
  function SourceX(dx: nat, width: nat): nat
    requires width > 0
  {
    dx * SOURCE_WIDTH / width
  }

  lemma SourceInLine(dx: nat, width: nat)
    requires width > 0 && 2 * dx < width
    ensures SourceX(dx, width) < SOURCE_WORDS
  {
    var x := SourceX(dx, width);
    MulKeepsOrder(SOURCE_WORDS, x, width);
    assert dx * SOURCE_WIDTH == x * width + dx * SOURCE_WIDTH % width;
  }

  // What is accumulated instead of dividing.
  ghost predicate Accumulated(dx: nat, width: nat, sx: nat, sxacc: nat) {
    sxacc < width && sx * width + sxacc == dx * SOURCE_WIDTH
  }

  lemma AccumulatedIs(dx: nat, width: nat, sx: nat, sxacc: nat)
    requires Accumulated(dx, width, sx, sxacc)
    ensures sx == SourceX(dx, width)
  {
    Quotient(dx * SOURCE_WIDTH, width, sx, sxacc);
  }

  lemma AccumulateStep(dx: nat, width: nat, sx: nat, sxacc: nat, sxstep: nat, sxrem: nat)
    requires Accumulated(dx, width, sx, sxacc) && sxstep == SOURCE_WIDTH / width && sxrem == SOURCE_WIDTH % width
    ensures if sxacc + sxrem >= width then Accumulated(dx + 1, width, sx + sxstep + 1, sxacc + sxrem - width)
      else Accumulated(dx + 1, width, sx + sxstep, sxacc + sxrem)
  {
    assert SOURCE_WIDTH == sxstep * width + sxrem;
    assert (sx + sxstep) * width == sx * width + sxstep * width;
    assert (sx + sxstep + 1) * width == (sx + sxstep) * width + width;
  }

  // -------- down the frame --------

  // The output line that a source line falls into.
  function Row(y: nat, height: nat): nat { y * height / SOURCE_LINES }

  lemma RowStep(y: nat, height: nat)
    requires height <= SOURCE_LINES
    ensures Row(y, height) <= Row(y + 1, height) <= Row(y, height) + 1
    ensures Row(SOURCE_LINES, height) == height && Row(0, height) == 0
  {
    assert (y + 1) * height == y * height + height;
  }

  // y is the first source line of output line k.
  ghost predicate FirstOf(y: nat, k: nat, height: nat) {
    Row(y, height) == k && (y > 0 ==> Row(y - 1, height) < k)
  }

  lemma FirstRange(y: nat, k: nat, height: nat)
    requires 0 < height <= SOURCE_LINES
    ensures FirstOf(y, k, height) <==> SOURCE_LINES * k <= y * height < SOURCE_LINES * k + height
  {
    assert y > 0 ==> (y - 1) * height == y * height - height;
    assert y == 0 ==> y * height == 0;
  }

  lemma QuotientRange(n: nat, d: nat, q: nat)
    requires d > 0
    ensures q == n / d <==> q * d <= n < q * d + d
  {
    if q * d <= n < q * d + d {
      Quotient(n, d, q, n - q * d);
    } else {
      assert n == n / d * d + n % d;
    }
  }

  /** The first source line of output line k, in closed form: 480 * k / height, rounded up. */
  lemma FirstOfIs(y: nat, k: nat, height: nat)
    requires 0 < height <= SOURCE_LINES
    ensures FirstOf(y, k, height) <==> y == (SOURCE_LINES * k + height - 1) / height
  {
    hide FirstOf;
    FirstRange(y, k, height);
    QuotientRange(SOURCE_LINES * k + height - 1, height, y);
  }

  // -------- the camera --------

  // A line of the frame as it is handed out: scaled, and mirrored or not.
  function OutputWord(frame: seq<Word>, sy: nat, dx: nat, width: nat, straight: bool): Word
    requires |frame| == SOURCE_WORDS * SOURCE_LINES && sy < SOURCE_LINES && 2 * dx < width
  {
    SourceInLine(dx, width);
    var sx := SourceX(dx, width);
    if straight then frame[sy * SOURCE_WORDS + sx] else Mirrored(frame[sy * SOURCE_WORDS + (SOURCE_WORDS - 1 - sx)])
  }

  // Output line k of a frame.
  ghost predicate IsLine(line: seq<Word>, frame: seq<Word>, k: nat, width: nat, height: nat, straight: bool, upsideDown: bool)
    requires |frame| == SOURCE_WORDS * SOURCE_LINES && height > 0
  {
    var y := (SOURCE_LINES * k + height - 1) / height;
    && |line| == width / 2 && y < SOURCE_LINES
    && (forall dx | 0 <= dx < |line| ::
          line[dx] == OutputWord(frame, if upsideDown then SOURCE_LINES - 1 - y else y, dx, width, straight))
  }

  lemma NothingAccumulated(width: nat)
    requires width > 0
    ensures Accumulated(0, width, 0, 0)
  {
  }

  // The source lines are used up only when the frame is done.
  lemma NotYetAtEnd(y: nat, k: nat, height: nat)
    requires y <= SOURCE_LINES
    ensures 0 < height <= SOURCE_LINES && FirstOf(y, k, height) && y == SOURCE_LINES ==> k >= height
  {
    if 0 < height <= SOURCE_LINES {
      RowStep(y, height);
    }
  }

  // When the frame is done, all source lines are used up.
  lemma LastLine(y: nat, k: nat, height: nat)
    requires 0 < height <= SOURCE_LINES && y <= SOURCE_LINES && FirstOf(y, k, height) && k >= height
    ensures y == SOURCE_LINES
  {
    FirstRange(y, k, height);
    MulKeepsOrder(y, SOURCE_LINES, height);
    MulKeepsOrder(y + 1, SOURCE_LINES, height);
    assert (y + 1) * height == y * height + height;
    assert SOURCE_LINES * k >= SOURCE_LINES * height;
  }

  class DsiCamera {
    var frame: seq<Word>
    var frameWidth: nat
    var frameHeight: nat
    // The read mode: bit 0 clear mirrors left and right, bit 1 set turns upside down.
    var straight: bool
    var upsideDown: bool
    var internalY: nat
    var transferY: nat

    // In the middle of a frame, the next source line is the first one of the next output line.
    ghost predicate Valid()
      reads this
    {
      && |frame| == SOURCE_WORDS * SOURCE_LINES && internalY <= SOURCE_LINES
      && (Supported(frameWidth, frameHeight) ==> FirstOf(internalY, transferY, frameHeight) && transferY <= frameHeight)
    }

    /** A new frame of the size that is set. */
    method StartTransfer(captured: seq<Word>, width: nat, height: nat, mode0: bool, mode1: bool)
      requires |captured| == SOURCE_WORDS * SOURCE_LINES
      modifies this
      ensures Valid() && internalY == 0 && transferY == 0
      ensures frame == captured && frameWidth == width && frameHeight == height && straight == mode0 && upsideDown == mode1
    {
      internalY, transferY := 0, 0;
      frameWidth, frameHeight, straight, upsideDown := width, height, mode0, mode1;
      frame := captured;
    }

    predicate TransferDone()
      reads this
    {
      transferY >= frameHeight
    }

    /**
      Hands out the next line: each word is that of the source at dx * 640 / width, in the first
      source line of the output line. Only a frame of a size that is not supported makes no progress.
    */
    method TransferScanline(buffer: array<Word>, maxlen: nat) returns (retlen: nat, nlines: nat)
      requires Valid() && maxlen <= buffer.Length
      modifies buffer, this`internalY, this`transferY
      ensures Valid()
      ensures var ready := Supported(frameWidth, frameHeight) && !old(TransferDone());
        && retlen == (if ready then frameWidth / 2 else 0)
        && transferY == old(transferY) + (if ready then 1 else 0)
        && internalY == old(internalY) + nlines && (ready <==> nlines > 0)
      ensures old(internalY) < SOURCE_LINES && retlen > 0 ==>
        var sy := if upsideDown then SOURCE_LINES - 1 - old(internalY) else old(internalY);
        forall dx | 0 <= dx < retlen && dx < maxlen :: buffer[dx] == OutputWord(frame, sy, dx, frameWidth, straight)
      ensures retlen > 0 ==> old(internalY) < SOURCE_LINES
      ensures forall i | 0 <= i < buffer.Length && (i >= retlen || i >= maxlen) :: buffer[i] == old(buffer[i])
    {
      retlen, nlines := 0, 0;
      if transferY >= frameHeight || internalY >= SOURCE_LINES {
        NotYetAtEnd(internalY, transferY, frameHeight);
        return;
      }
      if frameWidth > SOURCE_WIDTH || frameHeight > SOURCE_LINES || frameWidth < 2 || frameHeight < 2 || frameWidth % 2 == 1 {
        return;
      }
      retlen := frameWidth / 2;
      var sy := if upsideDown then SOURCE_LINES - 1 - internalY else internalY;
      CopyLine(buffer, maxlen, sy);
      nlines := NextLine();
    }

    // Copies a source line, scaled.
    method CopyLine(buffer: array<Word>, maxlen: nat, sy: nat)
      requires |frame| == SOURCE_WORDS * SOURCE_LINES && Supported(frameWidth, frameHeight)
      requires maxlen <= buffer.Length && sy < SOURCE_LINES
      modifies buffer
      ensures forall dx | 0 <= dx < frameWidth / 2 && dx < maxlen :: buffer[dx] == OutputWord(frame, sy, dx, frameWidth, straight)
      ensures forall i | 0 <= i < buffer.Length && (i >= frameWidth / 2 || i >= maxlen) :: buffer[i] == old(buffer[i])
    {
      hide SourceX, Accumulated;
      var sxstep, sxrem := SOURCE_WIDTH / frameWidth, SOURCE_WIDTH % frameWidth;
      var dx, sx: nat, sxacc: nat := 0, 0, 0;
      NothingAccumulated(frameWidth);
      while dx < frameWidth / 2 && dx < maxlen
        invariant 0 <= dx <= frameWidth / 2 && dx <= maxlen && Accumulated(dx, frameWidth, sx, sxacc)
        invariant forall k | 0 <= k < dx :: buffer[k] == OutputWord(frame, sy, k, frameWidth, straight)
        invariant forall i | dx <= i < buffer.Length :: buffer[i] == old(buffer[i])
      {
        AccumulatedIs(dx, frameWidth, sx, sxacc);
        SourceInLine(dx, frameWidth);
        if straight {
          buffer[dx] := frame[sy * SOURCE_WORDS + sx];
        } else {
          buffer[dx] := Mirrored(frame[sy * SOURCE_WORDS + (SOURCE_WORDS - 1 - sx)]);
        }
        AccumulateStep(dx, frameWidth, sx, sxacc, sxstep, sxrem);
        sxacc := sxacc + sxrem;
        sx := sx + sxstep;
        if sxacc >= frameWidth {
          sxacc := sxacc - frameWidth;
          sx := sx + 1;
        }
        dx := dx + 1;
      }
    }

    // Skips the source lines of the output line that has just been handed out.
    method NextLine() returns (nlines: nat)
      requires Valid() && Supported(frameWidth, frameHeight) && transferY < frameHeight && internalY < SOURCE_LINES
      modifies this`internalY, this`transferY
      ensures Valid() && transferY == old(transferY) + 1 && internalY == old(internalY) + nlines && nlines > 0
    {
      hide Row;
      var oldy := transferY;
      internalY := internalY + 1;
      transferY := Row(internalY, frameHeight);
      nlines := 1;
      while transferY == oldy && internalY < SOURCE_LINES
        invariant 0 < internalY <= SOURCE_LINES && internalY == old(internalY) + nlines
        invariant transferY == Row(internalY, frameHeight) && Row(internalY - 1, frameHeight) == oldy
        decreases SOURCE_LINES - internalY
      {
        internalY := internalY + 1;
        transferY := Row(internalY, frameHeight);
        nlines := nlines + 1;
      }
      RowStep(internalY - 1, frameHeight);
    }

    /**
      A whole frame takes exactly as many lines as it is high, and goes through all 480 source
      lines: output line k is the first source line at or after 480 * k / height.
    */
    method TransferFrame() returns (lines: seq<seq<Word>>, skipped: nat)
      requires Valid() && Supported(frameWidth, frameHeight) && internalY == 0 && transferY == 0
      modifies this`internalY, this`transferY
      ensures |lines| == frameHeight && skipped == SOURCE_LINES && TransferDone()
      ensures forall k | 0 <= k < |lines| :: IsLine(lines[k], frame, k, frameWidth, frameHeight, straight, upsideDown)
    {
      lines, skipped := [], 0;
      while !TransferDone()
        invariant Valid() && transferY == |lines| && transferY <= frameHeight && internalY == skipped
        invariant forall k | 0 <= k < |lines| :: IsLine(lines[k], frame, k, frameWidth, frameHeight, straight, upsideDown)
        decreases frameHeight - transferY
      {
        var buffer := new Word[512](_ => Word(0, 0, 0, 0));
        FirstOfIs(internalY, transferY, frameHeight);
        var retlen, nlines := TransferScanline(buffer, 512);
        lines := lines + [buffer[..retlen]];
        skipped := skipped + nlines;
      }
      LastLine(internalY, transferY, frameHeight);
    }
  }
}
