/** kernel/src/video.c with its arrays, flags and stamp, row by row. */
module Video {
  import opened VideoSpec

  class Screen {
    const vram: array<Byte>
    const vcache: array<Byte>
    const vdirty: array<bool>
    const vcdirty: array<bool>
    var stamp: Byte

    ghost predicate Valid()
      reads this
    {
      && vram != vcache && vdirty != vcdirty && vram.Length == VSIZE == vcache.Length
      && vdirty.Length == VHEIGHT == vcdirty.Length && stamp < PERIOD
    }

    function View(): State
      reads this, vram, vcache, vdirty, vcdirty
    {
      State(vram[..], vcache[..], vdirty[..], vcdirty[..], stamp)
    }

    constructor ()
      ensures Valid() && View() == Booted() && fresh(vram) && fresh(vcache) && fresh(vdirty) && fresh(vcdirty)
    {
      vram := new Byte[VSIZE](_ => 0);
      vcache := new Byte[VSIZE](_ => 0);
      vdirty := new bool[VHEIGHT](_ => false);
      vcdirty := new bool[VHEIGHT](_ => false);
      stamp := 0;
      new;
      assert vram[..] == Black(VSIZE) && vcache[..] == Black(VSIZE);
      assert vdirty[..] == Clean(VHEIGHT) && vcdirty[..] == Clean(VHEIGHT);
    }

    method RefreshVCache()
      requires Valid()
      modifies vdirty
      ensures View() == VideoSpec.RefreshVCache(old(View()))
    {
      var x := 0;
      while x < VHEIGHT
        invariant 0 <= x <= VHEIGHT && vcdirty[..] == old(vcdirty[..])
        invariant forall k :: 0 <= k < x ==> !vdirty[k]
      {
        vdirty[x] := false;
        x := x + 1;
      }
      assert vdirty[..] == Clean(VHEIGHT);
    }

    method InitVCache()
      requires Valid()
      modifies vcache, vdirty
      ensures View() == VideoSpec.InitVCache(old(View()))
    {
      forall i | 0 <= i < VSIZE { vcache[i] := 0; }
      assert vcache[..] == Black(VSIZE) && vram[..] == old(vram[..]);
      RefreshVCache();
    }

    method SetPixelAt(x: int, y: int, color: Byte)
      requires Valid()
      modifies vcache, vdirty, vcdirty
      ensures View() == VideoSpec.SetPixelAt(old(View()), x, y, color)
    {
      if x < 0 || x >= VHEIGHT || y < 0 || y >= VWIDTH {
        return;
      }
      vdirty[x] := true;
      vcdirty[x] := true;
      vcache[VWIDTH * x + y] := color;
    }

    method FlushVCache()
      requires Valid()
      modifies vram
      ensures View() == VideoSpec.FlushVCache(old(View()))
    {
      hide CopyRow;
      ghost var S := View();
      var x := 0;
      while x < VHEIGHT
        invariant 0 <= x <= VHEIGHT && View() == S.(vram := vram[..])
        invariant FlushRows(View(), x) == FlushRows(S, 0)
      {
        if vdirty[x] {
          CacheToScreen(x);
        }
        x := x + 1;
      }
    }

    method CacheToScreen(x: nat)
      requires Valid() && x < VHEIGHT
      modifies vram
      ensures View() == old(View()).(vram := CopyRow(old(vram[..]), vcache[..], x))
    {
      var at := VWIDTH * x;
      forall k | 0 <= k < VWIDTH { vram[at + k] := vcache[at + k]; }
      assert vram[..] == CopyRow(old(vram[..]), vcache[..], x);
    }

    method BlackToScreen(x: nat)
      requires Valid() && x < VHEIGHT
      modifies vram
      ensures View() == old(View()).(vram := CopyRow(old(vram[..]), Black(VSIZE), x))
    {
      var at := VWIDTH * x;
      forall k | 0 <= k < VWIDTH { vram[at + k] := 0; }
      assert vram[..] == CopyRow(old(vram[..]), Black(VSIZE), x);
    }

    method ClearVRAM()
      requires Valid()
      modifies vram, vcdirty, this`stamp
      ensures Valid() && View() == VideoSpec.ClearVRAM(old(View()))
    {
      hide CopyRow, Black;
      ghost var S := View();
      var x := 0;
      while x < VHEIGHT
        invariant 0 <= x <= VHEIGHT && View() == S.(vram := vram[..]) && Valid()
        invariant ClearRows(View(), x) == ClearRows(S, 0)
      {
        if vcdirty[x] && !vdirty[x] {
          BlackToScreen(x);
        }
        x := x + 1;
      }
      ghost var s1 := View();
      assert s1 == ClearRows(S, 0);
      stamp := stamp + 1;
      if stamp == PERIOD {
        stamp := 0;
      }
      if stamp == 0 {
        forall k | 0 <= k < VHEIGHT { vcdirty[k] := false; }
        assert vcdirty[..] == Clean(VHEIGHT);
      }
      assert View() == Tick(s1);
    }

    /** SYS_FLUSH_VCACHE */
    method Display()
      requires Valid()
      modifies vram, vcdirty, this`stamp
      ensures Valid() && View() == VideoSpec.Display(old(View()))
      ensures old(Inv(View())) ==> vram[..] == old(vcache[..])
    {
      hide VideoSpec.ClearVRAM, VideoSpec.FlushVCache, Inv;
      ghost var S := View();
      ShowsWhenInv(S);
      ClearVRAM();
      FlushVCache();
    }
  }
}
