/** The dirty-row cache of kernel/src/video.c.  A frame is drawn into VCACHE; a display call
    clears the rows of VRAM that an earlier frame used and this one does not, and copies the
    rows this one uses.  What is on the screen is then exactly the frame. */
module VideoSpec {

  const VWIDTH := 320
  const VHEIGHT := 200
  const VSIZE := 64000
  const PERIOD := 30        // displays until the record of used rows is dropped

  type Byte = b: int | 0 <= b < 256

  /** The flags only ever hold 0 and 1. */
  datatype State = State(vram: seq<Byte>, vcache: seq<Byte>, vdirty: seq<bool>, vcdirty: seq<bool>, stamp: Byte)

  predicate Shaped(s: State) { |s.vram| == VSIZE == |s.vcache| && |s.vdirty| == VHEIGHT == |s.vcdirty| && s.stamp < PERIOD }

  function Row(i: int): int { i / 320 }

  // ---- the operations, row by row

  function Black(n: nat): (s: seq<Byte>)
    ensures |s| == n && forall i :: 0 <= i < n ==> s[i] == 0
  {
    seq(n, _ => 0)
  }

  function Clean(n: nat): (s: seq<bool>)
    ensures |s| == n && forall i :: 0 <= i < n ==> !s[i]
  {
    seq(n, _ => false)
  }

  /** memcpy of one row from `from` over row x of `into`. */
  function CopyRow(into: seq<Byte>, from: seq<Byte>, x: nat): (s: seq<Byte>)
    requires x < VHEIGHT && |into| == VSIZE == |from|
    ensures |s| == VSIZE && forall i :: 0 <= i < VSIZE ==> s[i] == if Row(i) == x then from[i] else into[i]
  {
    assert VWIDTH * x + VWIDTH <= VSIZE;
    into[..VWIDTH * x] + from[VWIDTH * x..VWIDTH * x + VWIDTH] + into[VWIDTH * x + VWIDTH..]
  }

  function InitVCache(s: State): State { s.(vcache := Black(VSIZE), vdirty := Clean(VHEIGHT)) }

  function RefreshVCache(s: State): State { s.(vdirty := Clean(VHEIGHT)) }

  function SetPixelAt(s: State, x: int, y: int, color: Byte): (t: State)
    requires Shaped(s)
    ensures Shaped(t)
  {
    if x < 0 || x >= VHEIGHT || y < 0 || y >= VWIDTH then s else
    assert VWIDTH * x + y < VSIZE;
    s.(vdirty := s.vdirty[x := true], vcdirty := s.vcdirty[x := true], vcache := s.vcache[VWIDTH * x + y := color])
  }

  function FlushRows(s: State, x: nat): State
    requires Shaped(s)
    decreases VHEIGHT - x
  {
    if x >= VHEIGHT then s
    else if s.vdirty[x] then FlushRows(s.(vram := CopyRow(s.vram, s.vcache, x)), x + 1)
    else FlushRows(s, x + 1)
  }

  function FlushVCache(s: State): (t: State)
    requires Shaped(s)
    ensures Shaped(t)
  {
    FlushRowsPixels(s, 0);
    FlushRows(s, 0)
  }

  function ClearRows(s: State, x: nat): State
    requires Shaped(s)
    decreases VHEIGHT - x
  {
    if x >= VHEIGHT then s
    else if s.vcdirty[x] && !s.vdirty[x] then ClearRows(s.(vram := CopyRow(s.vram, Black(VSIZE), x)), x + 1)
    else ClearRows(s, x + 1)
  }

  /** The stamp of clearVRAM: every thirtieth call forgets which rows were used. */
  function Tick(s: State): State
    requires s.stamp < PERIOD
  {
    var stamp := if s.stamp + 1 == PERIOD then 0 else s.stamp + 1;
    s.(stamp := stamp, vcdirty := if stamp == 0 then Clean(VHEIGHT) else s.vcdirty)
  }

  function ClearVRAM(s: State): (t: State)
    requires Shaped(s)
    ensures Shaped(t)
  {
    ClearRowsPixels(s, 0);
    Tick(ClearRows(s, 0))
  }

  /** SYS_FLUSH_VCACHE */
  function Display(s: State): (t: State)
    requires Shaped(s)
    ensures Shaped(t)
  {
    FlushVCache(ClearVRAM(s))
  }

  // ---- what the loops amount to, pixel by pixel

  lemma {:induction false} FlushRowsPixels(s: State, x: nat)
    requires Shaped(s) && x <= VHEIGHT
    decreases VHEIGHT - x
    ensures var s' := FlushRows(s, x);
            |s'.vram| == VSIZE && s' == s.(vram := s'.vram)
            && forall i :: 0 <= i < VSIZE ==> s'.vram[i] == if Row(i) >= x && s.vdirty[Row(i)] then s.vcache[i] else s.vram[i]
  {
    hide CopyRow;
    if x < VHEIGHT {
      if s.vdirty[x] {
        FlushRowsPixels(s.(vram := CopyRow(s.vram, s.vcache, x)), x + 1);
      } else {
        FlushRowsPixels(s, x + 1);
      }
    }
  }

  lemma {:induction false} ClearRowsPixels(s: State, x: nat)
    requires Shaped(s) && x <= VHEIGHT
    decreases VHEIGHT - x
    ensures var s' := ClearRows(s, x);
            |s'.vram| == VSIZE && s' == s.(vram := s'.vram)
            && forall i :: 0 <= i < VSIZE ==>
                 s'.vram[i] == if Row(i) >= x && s.vcdirty[Row(i)] && !s.vdirty[Row(i)] then 0 else s.vram[i]
  {
    hide CopyRow, Black;
    if x < VHEIGHT {
      if s.vcdirty[x] && !s.vdirty[x] {
        ClearRowsPixels(s.(vram := CopyRow(s.vram, Black(VSIZE), x)), x + 1);
      } else {
        ClearRowsPixels(s, x + 1);
      }
    }
  }

  // ---- the invariant

  /** Rows of the screen that are not black are on record; the rows of this frame are too; and
      the rows of the cache that the frame does not use are black. */
  ghost predicate Inv(s: State) {
    && Shaped(s)
    && (forall i :: 0 <= i < VSIZE && s.vram[i] != 0 ==> s.vcdirty[Row(i)])
    && (forall x :: 0 <= x < VHEIGHT && s.vdirty[x] ==> s.vcdirty[x])
    && (forall i :: 0 <= i < VSIZE && !s.vdirty[Row(i)] ==> s.vcache[i] == 0)
  }

  lemma InitKeeps(s: State)
    requires Inv(s)
    ensures Inv(InitVCache(s))
  {
  }

  lemma SetPixelKeeps(s: State, x: int, y: int, color: Byte)
    requires Inv(s)
    ensures Inv(SetPixelAt(s, x, y, color))
  {
    assert 0 <= x < VHEIGHT && 0 <= y < VWIDTH ==> Row(VWIDTH * x + y) == x;
  }

  lemma FlushKeeps(s: State)
    requires Inv(s)
    ensures Inv(FlushVCache(s))
  {
    FlushRowsPixels(s, 0);
  }

  /** Clearing keeps the invariant exactly when the stamp does not wrap, or the frame is empty:
      at the wrap the record of used rows goes, while this frame's rows are in use. */
  lemma ClearKeepsIff(s: State)
    requires Inv(s)
    ensures Inv(ClearVRAM(s)) <==> (s.stamp != PERIOD - 1 || forall x :: 0 <= x < VHEIGHT ==> !s.vdirty[x])
  {
    ClearRowsPixels(s, 0);
    var s' := ClearVRAM(s);
    if s.stamp == PERIOD - 1 && forall x :: 0 <= x < VHEIGHT ==> !s.vdirty[x] {
      forall i | 0 <= i < VSIZE
        ensures s'.vram[i] == 0
      {
        assert !s.vdirty[Row(i)];
      }
    }
  }

  /** The display theorem: after clearVRAM and flushVCache the screen shows the frame. */
  lemma DisplayShows(s: State)
    requires Inv(s)
    ensures Display(s).vram == s.vcache && Display(s).vcache == s.vcache
  {
    hide Tick;
    ClearRowsPixels(s, 0);
    var s1 := ClearVRAM(s);
    TickFields(ClearRows(s, 0));
    FlushRowsPixels(s1, 0);
    forall i | 0 <= i < VSIZE
      ensures Display(s).vram[i] == s.vcache[i]
    {
      assert s.vram[i] != 0 ==> s.vcdirty[Row(i)];
    }
  }

  lemma TickFields(s: State)
    requires s.stamp < PERIOD
    ensures var t := Tick(s); t.vram == s.vram && t.vcache == s.vcache && t.vdirty == s.vdirty
  {
  }

  lemma InvShaped(s: State)
    requires Inv(s)
    ensures Shaped(s)
  {
  }

  // ---- runs

  datatype Op = Init | Pixel(x: int, y: int, color: Byte) | Flush | Clear | Show

  function Step(s: State, op: Op): State
    requires Shaped(s)
  {
    match op
    case Init => InitVCache(s)
    case Pixel(x, y, color) => SetPixelAt(s, x, y, color)
    case Flush => FlushVCache(s)
    case Clear => ClearVRAM(s)
    case Show => Display(s)
  }

  /** Unless it clears: the stamp does not wrap, or the frame is empty. */
  predicate Quiet(s: State, op: Op)
    requires Shaped(s)
  {
    op == Show || op == Clear ==> s.stamp != PERIOD - 1 || forall x :: 0 <= x < VHEIGHT ==> !s.vdirty[x]
  }

  lemma StepKeeps(s: State, op: Op)
    requires Inv(s) && Quiet(s, op)
    ensures Inv(Step(s, op))
  {
    hide Inv, FlushVCache, ClearVRAM, SetPixelAt, InitVCache;
    InvShaped(s);
    match op
    case Init => InitKeeps(s);
    case Pixel(x, y, color) => SetPixelKeeps(s, x, y, color);
    case Flush => FlushKeeps(s);
    case Clear => ClearKeepsIff(s);
    case Show =>
      ClearKeepsIff(s);
      FlushKeeps(ClearVRAM(s));
  }

  ghost predicate QuietRun(s: State, ops: seq<Op>)
    requires Inv(s)
    decreases |ops|
  {
    ops == [] || (Quiet(s, ops[0]) && (StepKeeps(s, ops[0]); QuietRun(Step(s, ops[0]), ops[1..])))
  }

  ghost function Run(s: State, ops: seq<Op>): State
    requires Inv(s) && QuietRun(s, ops)
    decreases |ops|
  {
    if ops == [] then s else
    StepKeeps(s, ops[0]);
    Run(Step(s, ops[0]), ops[1..])
  }

  /** The screen at the start of the kernel: all black, no flag set. */
  function Booted(): State { State(Black(VSIZE), Black(VSIZE), Clean(VHEIGHT), Clean(VHEIGHT), 0) }

  /** However a run went, as long as no stamp wrapped over a frame, the next display shows
      exactly what was drawn. */
  lemma {:induction false} RunShows(s: State, ops: seq<Op>)
    requires Inv(s) && QuietRun(s, ops)
    decreases |ops|
    ensures Inv(Run(s, ops)) && Display(Run(s, ops)).vram == Run(s, ops).vcache
  {
    hide Inv, Step, Display, Quiet;
    InvShaped(s);
    if ops == [] {
      DisplayShows(s);
    } else {
      StepKeeps(s, ops[0]);
      RunShows(Step(s, ops[0]), ops[1..]);
    }
  }

  lemma BootedInv()
    ensures Inv(Booted())
  {
  }

  /** The defect at the wrap, on the smallest run: a frame with one pixel is on the screen when
      the record is dropped; an empty frame displayed after it leaves the pixel there. */
  lemma WrapLeavesPixel(s: State, color: Byte)
    requires Inv(s) && s.stamp == PERIOD - 1 && color != 0 && (forall x :: 0 <= x < VHEIGHT ==> !s.vdirty[x])
    ensures var s2 := InitVCache(Display(SetPixelAt(s, 0, 0, color)));
            Shaped(s2) && s2.vcache == Black(VSIZE) && Display(s2).vram != s2.vcache
  {
    hide CopyRow, Black;
    var t := SetPixelAt(s, 0, 0, color);
    SetPixelKeeps(s, 0, 0, color);
    ClearRowsPixels(t, 0);
    FlushRowsPixels(ClearVRAM(t), 0);
    var s2 := InitVCache(Display(t));
    ClearRowsPixels(s2, 0);
    FlushRowsPixels(ClearVRAM(s2), 0);
    assert Display(s2).vram[0] == color;
  }

  lemma ShowsWhenInv(s: State)
    requires Shaped(s)
    ensures Inv(s) ==> Display(s).vram == s.vcache
  {
    hide Inv, Display;
    if Inv(s) {
      DisplayShows(s);
    }
  }

  // ---- what is drawn

  predicate OnScreen(x: int, y: int) { 0 <= x < VHEIGHT && 0 <= y < VWIDTH }

  /** A pixel on the screen changes its own byte of the cache and the two flags of its row; one
      outside changes nothing. */
  lemma PixelDraws(s: State, x: int, y: int, color: Byte)
    requires Shaped(s)
    ensures !OnScreen(x, y) ==> SetPixelAt(s, x, y, color) == s
    ensures OnScreen(x, y) ==>
      var t := SetPixelAt(s, x, y, color);
      && (forall i :: 0 <= i < VSIZE ==> t.vcache[i] == if i == 320 * x + y then color else s.vcache[i])
      && (forall r :: 0 <= r < VHEIGHT ==> t.vdirty[r] == (r == x || s.vdirty[r]) && t.vcdirty[r] == (r == x || s.vcdirty[r]))
      && t.vram == s.vram && t.stamp == s.stamp
  {
  }

  /** The colour at x, y after these operations on a cache that held `was` there: that of the
      last pixel drawn there since the last initVCache, which blacks everything. */
  function DrawnOn(was: Byte, ops: seq<Op>, x: int, y: int): Byte {
    if ops == [] then was else
    var last := ops[|ops| - 1];
    if last == Init then 0
    else if last.Pixel? && last.x == x && last.y == y then last.color
    else DrawnOn(was, ops[..|ops| - 1], x, y)
  }

  function Drawn(ops: seq<Op>, x: int, y: int): Byte { DrawnOn(0, ops, x, y) }

  lemma {:induction false} DrawnFirst(was: Byte, ops: seq<Op>, x: int, y: int)
    requires ops != []
    decreases |ops|
    ensures DrawnOn(was, ops, x, y) == DrawnOn(DrawnOn(was, ops[..1], x, y), ops[1..], x, y)
  {
    var n := |ops| - 1;
    if n > 0 {
      assert ops[..n][..1] == ops[..1] && ops[..n][1..] == ops[1..][..n - 1] && ops[1..][n - 1] == ops[n];
      DrawnFirst(was, ops[..n], x, y);
    } else {
      assert ops[..1] == ops && ops[1..] == [];
    }
  }

  lemma Cell(x: int, y: int, x2: int, y2: int)
    requires OnScreen(x, y) && OnScreen(x2, y2)
    ensures 0 <= 320 * x + y < VSIZE && (320 * x + y == 320 * x2 + y2 <==> x == x2 && y == y2)
  {
  }

  lemma StepDraws(s: State, op: Op, x: int, y: int)
    requires Shaped(s) && OnScreen(x, y)
    ensures Shaped(Step(s, op)) && Step(s, op).vcache[320 * x + y] == DrawnOn(s.vcache[320 * x + y], [op], x, y)
  {
    hide SetPixelAt;
    assert [op][..0] == [];
    assert 0 <= 320 * x + y < VSIZE by { Cell(x, y, x, y); }
    match op
    case Init =>
    case Pixel(x2, y2, color) =>
      PixelDraws(s, x2, y2, color);
      if OnScreen(x2, y2) { Cell(x, y, x2, y2); }
    case Flush => FlushRowsPixels(s, 0);
    case Clear => ClearRowsPixels(s, 0);
    case Show =>
      ClearRowsPixels(s, 0);
      FlushRowsPixels(ClearVRAM(s), 0);
  }

  /** The cache after a run, byte by byte, from the list of operations alone. */
  lemma {:induction false} RunDraws(s: State, ops: seq<Op>, x: int, y: int)
    requires Inv(s) && QuietRun(s, ops) && OnScreen(x, y)
    decreases |ops|
    ensures |Run(s, ops).vcache| == VSIZE && 0 <= 320 * x + y < VSIZE
    ensures Run(s, ops).vcache[320 * x + y] == DrawnOn(s.vcache[320 * x + y], ops, x, y)
  {
    hide Inv, Step, Quiet, Display;
    InvShaped(s);
    Cell(x, y, x, y);
    if ops != [] {
      StepKeeps(s, ops[0]);
      StepDraws(s, ops[0], x, y);
      DrawnFirst(s.vcache[320 * x + y], ops, x, y);
      assert ops[..1] == [ops[0]];
      RunDraws(Step(s, ops[0]), ops[1..], x, y);
    }
  }

  // when a run is quiet, from the list of operations alone

  predicate Clears(op: Op) { op == Clear || op == Show }

  /** The stamp and whether the frame has a pixel decide, and follow from the operations. */
  predicate QuietOps(stamp: Byte, drawn: bool, ops: seq<Op>)
    decreases |ops|
  {
    ops == [] || var op := ops[0];
    && (Clears(op) && stamp == PERIOD - 1 ==> !drawn)
    && QuietOps(if !Clears(op) then stamp else if stamp == PERIOD - 1 then 0 else (stamp + 1) % 256,
                if op == Init then false else drawn || (op.Pixel? && OnScreen(op.x, op.y)), ops[1..])
  }

  ghost predicate HasRow(s: State) { exists x :: 0 <= x < |s.vdirty| && s.vdirty[x] }

  lemma StepStamps(s: State, op: Op)
    requires Shaped(s)
    ensures Step(s, op).stamp == if !Clears(op) then s.stamp else if s.stamp == PERIOD - 1 then 0 else s.stamp + 1
    ensures HasRow(Step(s, op)) <==> op != Init && (HasRow(s) || (op.Pixel? && OnScreen(op.x, op.y)))
  {
    hide SetPixelAt, CopyRow, Black;
    match op
    case Init =>
    case Pixel(x, y, color) =>
      PixelDraws(s, x, y, color);
      if OnScreen(x, y) {
        assert SetPixelAt(s, x, y, color).vdirty[x];
      }
    case Flush => FlushRowsPixels(s, 0);
    case Clear => ClearRowsPixels(s, 0);
    case Show =>
      ClearRowsPixels(s, 0);
      FlushRowsPixels(ClearVRAM(s), 0);
  }

  lemma {:induction false} QuietIff(s: State, ops: seq<Op>)
    requires Inv(s)
    decreases |ops|
    ensures QuietRun(s, ops) <==> QuietOps(s.stamp, HasRow(s), ops)
  {
    hide Inv, Step;
    InvShaped(s);
    if ops != [] && Quiet(s, ops[0]) {
      StepKeeps(s, ops[0]);
      StepStamps(s, ops[0]);
      QuietIff(Step(s, ops[0]), ops[1..]);
    }
  }

  /** From boot: unless a thirtieth clear meets a frame that has a pixel, the next display shows
      at each place the colour last drawn there since the frame was begun, and black elsewhere. */
  lemma ShowsWhatWasDrawn(ops: seq<Op>, x: int, y: int)
    requires QuietOps(0, false, ops) && OnScreen(x, y)
    ensures Inv(Booted()) && QuietRun(Booted(), ops) && Shaped(Run(Booted(), ops))
    ensures var screen := Display(Run(Booted(), ops)).vram;
            |screen| == VSIZE && 0 <= 320 * x + y < VSIZE && screen[320 * x + y] == Drawn(ops, x, y)
  {
    hide Inv, Step, Display, Quiet, QuietRun, QuietOps;
    BootedInv();
    QuietIff(Booted(), ops);
    RunShows(Booted(), ops);
    InvShaped(Run(Booted(), ops));
    RunDraws(Booted(), ops, x, y);
  }
}
