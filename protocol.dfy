/**
 * The HT1632 frames MatrixDisplay clocks onto the bus, as pure functions of
 * their parameters.  The opcodes come from a header that is not part of this
 * model, so they are carried around opaquely in a `Codes` value.
 */
module Ht1632 {
  import opened Wrappers
  import opened Wire
  import opened Framebuffer

  /** HT1632_ID_WR, HT1632_ID_CMD and the HT1632_CMD_* opcodes, each as the byte it is passed as. */
  datatype Codes = Codes(
    idWr: Byte, idCmd: Byte,
    sysDis: Byte, coms10: Byte, mstMd: Byte, slvMd: Byte,
    sysEn: Byte, ledOn: Byte, blOff: Byte, pwm: Byte)

  /** preCommand: three clock cycles with the data line at 1, 0, 0. */
  const PreCommandBits: seq<Event> := [Bit(true), Bit(false), Bit(false)]

  /** The "write RAM" header: the 3-bit ID MSB-first, then the 7-bit address MSB-first. */
  function WriteHeader(codes: Codes, addr: Byte): (r: seq<Event>)
    ensures |r| == 10
  {
    BEBits(3, codes.idWr) + BEBits(7, addr)
  }

  /** The frame syncDisplays sends to display `d`: header at address 0, then the region's bytes LSB-first. */
  function SyncFrame(codes: Codes, d: int, region: seq<Byte>): (r: seq<Event>)
    ensures |r| == 12 + 8 * |region|
  {
    [Select(d)] + WriteHeader(codes, 0) + BytesLE(region) + [Release(d)]
  }

  /** The 32-byte region of display `d` in a buffer snapshot. */
  function Region(buf: seq<Byte>, d: nat): (r: seq<Byte>)
    requires BackBufferSize * (d + 1) <= |buf|
    ensures |r| == BackBufferSize
  {
    buf[BackBufferSize * d .. BackBufferSize * (d + 1)]
  }

  /** Everything syncDisplays sends for displays 0 .. n-1, in order. */
  function SyncTrace(codes: Codes, buf: seq<Byte>, n: nat): (r: seq<Event>)
    requires BackBufferSize * n <= |buf|
    ensures |r| == 268 * n
  {
    if n == 0 then [] else SyncTrace(codes, buf, n - 1) + SyncFrame(codes, n - 1, Region(buf, n - 1))
  }

  /** The frame writeNibbles(d, addr, ns, |ns|) sends. */
  function NibbleFrame(codes: Codes, d: int, addr: Byte, ns: seq<Byte>): (r: seq<Event>)
    ensures |r| == 12 + 4 * |ns|
  {
    [Select(d)] + WriteHeader(codes, addr) + Nibbles(ns) + [Release(d)]
  }

  /** The frame writeCommand(d, cmd) sends: data line raised, ID, command, one zero bit, data line lowered. */
  function CommandFrame(codes: Codes, d: int, cmd: Byte): (r: seq<Event>)
    ensures |r| == 16
  {
    [Select(d), DataLevel(true)] + BEBits(3, codes.idCmd) + BEBits(8, cmd) + BEBits(1, 0)
      + [DataLevel(false), Release(d)]
  }

  /** The brightness level setBrightness uses: pwmValue capped at 15. */
  function Clamp(p: Byte): (r: Byte)
    ensures r <= 15
    ensures r == p || (p > 15 && r == 15)
  {
    if p > 15 then 15 else p
  }

  /** The frame setBrightness(d, p) sends: precommand, PWM + level MSB-first, one extra clock. */
  function BrightnessFrame(codes: Codes, d: int, p: Byte): (r: seq<Event>)
    ensures |r| == 14
  {
    [Select(d)] + PreCommandBits + BEBits(8, codes.pwm + Clamp(p)) + NopClock(true) + [Release(d)]
  }

  /** The bring-up commands initDisplay sends, in order. */
  function ConfigCommands(codes: Codes, master: bool): (r: seq<Byte>)
    ensures |r| == 7
  {
    [codes.sysDis, codes.coms10, if master then codes.mstMd else codes.slvMd,
     codes.sysEn, codes.ledOn, codes.blOff, codes.pwm + 15]
  }

  /** Commands sent back to back with writeDataBE(8, ·, true): eight bits and an extra clock each. */
  function CommandsWithNop(cs: seq<Byte>): (r: seq<Event>)
    ensures |r| == 9 * |cs|
  {
    if cs == [] then [] else BEBits(8, cs[0]) + NopClock(true) + CommandsWithNop(cs[1..])
  }

  /** initDisplay up to the closing clear: pin set up and idled high, then the bring-up commands. */
  function InitFrame(codes: Codes, d: int, pin: uint8, master: bool): (r: seq<Event>)
    ensures |r| == 70
  {
    [PinMode(pin), Release(d), Select(d)] + PreCommandBits
      + CommandsWithNop(ConfigCommands(codes, master)) + [Release(d)]
  }

  /** The display numbers 0 .. n-1. */
  function Upto(n: nat): set<int>
  {
    if n == 0 then {} else Upto(n - 1) + {n - 1}
  }

  /** Display selects for 0 .. n-1, in order. */
  function SelectAll(n: nat): (r: seq<Event>)
    ensures |r| == n
  {
    seq(n, i requires 0 <= i < n => Select(i))
  }

  /** Display releases for 0 .. n-1, in order. */
  function ReleaseAll(n: nat): (r: seq<Event>)
    ensures |r| == n
  {
    seq(n, i requires 0 <= i < n => Release(i))
  }

  /** What clear(paint = true) sends, as written: every display selected, then 32 nibbles of 0xff. */
  function ClearAllFrame(codes: Codes, n: nat): (r: seq<Event>)
    ensures |r| == 2 * n + 10 + 128
  {
    SelectAll(n) + WriteHeader(codes, 0) + Nibbles(seq(32, i => 0xff as Byte)) + ReleaseAll(n)
  }

  /** An all-display blanking frame: every display selected, then zero in all 64 nibbles of RAM. */
  function BlankAllFrame(codes: Codes, n: nat): (r: seq<Event>)
    ensures |r| == 2 * n + 10 + 256
  {
    SelectAll(n) + WriteHeader(codes, 0) + Nibbles(seq(64, i => 0 as Byte)) + ReleaseAll(n)
  }

  // ---------------------------------------------------------------------------
  // What a receiver decodes from each frame

  /** preCommand sends the mode bits 100 MSB-first. */
  lemma PreCommandIsMode4()
    ensures PreCommandBits == BEBits(3, 4)
    ensures DecodeBE(PreCommandBits) == 4
  {
    DecodeBEBits(3, 4);
  }

  lemma HeaderDecodes(codes: Codes, addr: Byte)
    ensures DecodeBE(WriteHeader(codes, addr)[..3]) == codes.idWr & 7
    ensures DecodeBE(WriteHeader(codes, addr)[3..]) == addr & 127
    ensures AllClocked(WriteHeader(codes, addr))
  {
    var h := WriteHeader(codes, addr);
    assert h[..3] == BEBits(3, codes.idWr);
    assert h[3..] == BEBits(7, addr);
    DecodeBEBits(3, codes.idWr);
    DecodeBEBits(7, addr);
  }

  /**
   * A sync frame for a 32-byte region is 268 events: the select, the write
   * ID, address 0, the 32 bytes (decoded back exactly) and the release.
   */
  lemma SyncFrameDecodes(codes: Codes, d: int, region: seq<Byte>)
    requires |region| == BackBufferSize
    ensures var f := SyncFrame(codes, d, region);
      |f| == 268 && f[0] == Select(d) && f[267] == Release(d) &&
      DecodeBE(f[1..4]) == codes.idWr & 7 && DecodeBE(f[4..11]) == 0 &&
      DecodeBytesLE(f[11..267]) == region && WellFramed(f)
  {
    var f := SyncFrame(codes, d, region);
    var h := WriteHeader(codes, 0);
    HeaderDecodes(codes, 0);
    assert f[1..4] == h[..3];
    assert f[4..11] == h[3..];
    assert f[11..267] == BytesLE(region);
    DecodeBytesLERoundTrip(region);
    BytesLEClocked(region);
    AllClockedAppend(h, BytesLE(region));
    SingleFrame(d, h + BytesLE(region));
    assert f == [Select(d)] + (h + BytesLE(region)) + [Release(d)];
  }

  /** The frame at position k of a sync trace is display k's frame for its own region. */
  lemma {:induction false} SyncTraceFrame(codes: Codes, buf: seq<Byte>, n: nat, k: nat)
    requires BackBufferSize * n <= |buf| && k < n
    ensures SyncTrace(codes, buf, n)[268 * k .. 268 * (k + 1)] == SyncFrame(codes, k, Region(buf, k))
  {
    var prev := SyncTrace(codes, buf, n - 1);
    var last := SyncFrame(codes, n - 1, Region(buf, n - 1));
    assert SyncTrace(codes, buf, n) == prev + last;
    if k < n - 1 {
      SliceLeft(prev, last, 268 * k, 268 * (k + 1));
      SyncTraceFrame(codes, buf, n - 1, k);
    } else {
      SliceRight(prev, last, 268 * k, 268 * (k + 1));
    }
  }

  /** syncDisplays leaves every chip deselected and never clocks with none selected. */
  lemma {:induction false} SyncTraceWellFramed(codes: Codes, buf: seq<Byte>, n: nat)
    requires BackBufferSize * n <= |buf|
    ensures WellFramed(SyncTrace(codes, buf, n))
  {
    if n == 0 {
      assert Track({}, []) == Some({});
    } else {
      SyncTraceWellFramed(codes, buf, n - 1);
      SyncFrameDecodes(codes, n - 1, Region(buf, n - 1));
      WellFramedAppend(SyncTrace(codes, buf, n - 1), SyncFrame(codes, n - 1, Region(buf, n - 1)));
    }
  }

  /** Only the bytes of the first n regions reach the wire. */
  lemma {:induction false} SyncTraceDependsOnRegions(codes: Codes, a: seq<Byte>, b: seq<Byte>, n: nat)
    requires BackBufferSize * n <= |a| && BackBufferSize * n <= |b|
    requires a[..BackBufferSize * n] == b[..BackBufferSize * n]
    ensures SyncTrace(codes, a, n) == SyncTrace(codes, b, n)
  {
    if n > 0 {
      assert a[..BackBufferSize * (n - 1)] == a[..BackBufferSize * n][..BackBufferSize * (n - 1)];
      assert b[..BackBufferSize * (n - 1)] == b[..BackBufferSize * n][..BackBufferSize * (n - 1)];
      SyncTraceDependsOnRegions(codes, a, b, n - 1);
      assert Region(a, n - 1) == a[..BackBufferSize * n][BackBufferSize * (n - 1)..];
      assert Region(b, n - 1) == b[..BackBufferSize * n][BackBufferSize * (n - 1)..];
    }
  }

  /**
   * A nibble frame carries the write ID, the low 7 bits of the address and
   * the low 4 bits of each nibble, between a select and a release.
   */
  lemma NibbleFrameDecodes(codes: Codes, d: int, addr: Byte, ns: seq<Byte>)
    ensures var f := NibbleFrame(codes, d, addr, ns);
      f[0] == Select(d) && f[|f| - 1] == Release(d) &&
      DecodeBE(f[1..4]) == codes.idWr & 7 && DecodeBE(f[4..11]) == addr & 127 &&
      DecodeNibbles(f[11..|f| - 1]) == seq(|ns|, i requires 0 <= i < |ns| => ns[i] & 15) &&
      WellFramed(f)
  {
    var f := NibbleFrame(codes, d, addr, ns);
    var h := WriteHeader(codes, addr);
    HeaderDecodes(codes, addr);
    assert f[1..4] == h[..3];
    assert f[4..11] == h[3..];
    assert f[11..|f| - 1] == Nibbles(ns);
    DecodeNibblesRoundTrip(ns);
    NibblesClocked(ns);
    AllClockedAppend(h, Nibbles(ns));
    SingleFrame(d, h + Nibbles(ns));
    assert f == [Select(d)] + (h + Nibbles(ns)) + [Release(d)];
  }

  /** A command frame carries the command ID, the 8-bit command and a trailing zero bit. */
  lemma CommandFrameDecodes(codes: Codes, d: int, cmd: Byte)
    ensures var f := CommandFrame(codes, d, cmd);
      f[0] == Select(d) && f[1] == DataLevel(true) && f[14] == DataLevel(false) && f[15] == Release(d) &&
      DecodeBE(f[2..5]) == codes.idCmd & 7 && DecodeBE(f[5..13]) == cmd && f[13] == Bit(false) &&
      WellFramed(f)
  {
    var f := CommandFrame(codes, d, cmd);
    assert DecodeBE(f[2..5]) == codes.idCmd & 7 by {
      assert f[2..5] == BEBits(3, codes.idCmd);
      DecodeBEBits(3, codes.idCmd);
    }
    assert DecodeBE(f[5..13]) == cmd by {
      assert f[5..13] == BEBits(8, cmd);
      DecodeBEBits(8, cmd);
    }
    assert f[13] == Bit(false) by {
      assert f[13] == BEBits(1, 0)[0];
      assert !BitAt(0, 0);
    }
    CommandFrameFramed(codes, d, cmd);
  }

  /** A command frame is one select, clocked bits and data-line changes, and one release. */
  lemma CommandFrameFramed(codes: Codes, d: int, cmd: Byte)
    ensures WellFramed(CommandFrame(codes, d, cmd))
  {
    var f := CommandFrame(codes, d, cmd);
    var body := BEBits(3, codes.idCmd) + BEBits(8, cmd) + BEBits(1, 0);
    var mid := [DataLevel(true)] + body + [DataLevel(false)];
    assert Track({d}, mid) == Some({d}) by {
      AllClockedAppend(BEBits(3, codes.idCmd), BEBits(8, cmd));
      AllClockedAppend(BEBits(3, codes.idCmd) + BEBits(8, cmd), BEBits(1, 0));
      assert Track({d}, [DataLevel(true)]) == Some({d});
      assert Track({d}, [DataLevel(false)]) == Some({d});
      TrackClocked({d}, body);
      TrackAppend({d}, [DataLevel(true)], body);
      TrackAppend({d}, [DataLevel(true)] + body, [DataLevel(false)]);
    }
    assert f == [Select(d)] + mid + [Release(d)];
    SingleFrameWith(d, mid);
  }

  /** A select, a middle that keeps the selection as it is, and a release are well framed. */
  lemma SingleFrameWith(d: int, mid: seq<Event>)
    requires Track({d}, mid) == Some({d})
    ensures WellFramed([Select(d)] + mid + [Release(d)])
  {
    var none: set<int> := {};
    assert none + {d} == {d};
    assert [Select(d)][1..] == [];
    assert Track({}, [Select(d)]) == Some({d});
    TrackAppend({}, [Select(d)], mid);
    assert {d} - {d} == none;
    assert [Release(d)][1..] == [];
    assert Track({d}, [Release(d)]) == Some(none);
    TrackAppend({}, [Select(d)] + mid, [Release(d)]);
  }

  /**
   * setBrightness sends mode 100 and then PWM + min(p, 15) between a select
   * and a release; the level it sets is p capped at 15.
   */
  lemma BrightnessFrameDecodes(codes: Codes, d: int, p: Byte)
    ensures var f := BrightnessFrame(codes, d, p);
      f[0] == Select(d) && f[13] == Release(d) && f[12] == ExtraClk &&
      DecodeBE(f[1..4]) == 4 && DecodeBE(f[4..12]) == codes.pwm + Clamp(p) &&
      WellFramed(f)
  {
    var f := BrightnessFrame(codes, d, p);
    var c := codes.pwm + Clamp(p);
    BrightnessFrameFields(codes, d, c);
    BrightnessFrameBracketed(codes, d, c);
  }

  lemma BrightnessFrameFields(codes: Codes, d: int, c: Byte)
    ensures var f := [Select(d)] + PreCommandBits + BEBits(8, c) + NopClock(true) + [Release(d)];
      f[0] == Select(d) && f[13] == Release(d) && f[12] == ExtraClk &&
      DecodeBE(f[1..4]) == 4 && DecodeBE(f[4..12]) == c
  {
    var f := [Select(d)] + PreCommandBits + BEBits(8, c) + NopClock(true) + [Release(d)];
    PreCommandIsMode4();
    assert f[1..4] == PreCommandBits;
    assert f[4..12] == BEBits(8, c);
    DecodeBEBits(8, c);
  }

  lemma BrightnessFrameBracketed(codes: Codes, d: int, c: Byte)
    ensures WellFramed([Select(d)] + PreCommandBits + BEBits(8, c) + NopClock(true) + [Release(d)])
  {
    var body := PreCommandBits + BEBits(8, c) + NopClock(true);
    AllClockedAppend(PreCommandBits, BEBits(8, c));
    AllClockedAppend(PreCommandBits + BEBits(8, c), NopClock(true));
    SingleFrame(d, body);
    assert [Select(d)] + PreCommandBits + BEBits(8, c) + NopClock(true) + [Release(d)] == [Select(d)] + body + [Release(d)];
  }

  /** Every level above 15 sends exactly the frame of level 15. */
  lemma BrightnessSaturates(codes: Codes, d: int, p: Byte)
    requires p >= 15
    ensures BrightnessFrame(codes, d, p) == BrightnessFrame(codes, d, 15)
  {}

  /** Levels 0 .. 15 send pairwise different frames. */
  lemma BrightnessLevelsDistinct(codes: Codes, d: int, p: Byte, q: Byte)
    requires p <= 15 && q <= 15 && p != q
    ensures BrightnessFrame(codes, d, p) != BrightnessFrame(codes, d, q)
  {
    var f, g := BrightnessFrame(codes, d, p), BrightnessFrame(codes, d, q);
    BrightnessFrameDecodes(codes, d, p);
    BrightnessFrameDecodes(codes, d, q);
  }

  /** setBrightness(20) and setBrightness(15) put the same events on the bus. */
  lemma Brightness20Is15(codes: Codes, d: int)
    ensures BrightnessFrame(codes, d, 20) == BrightnessFrame(codes, d, 15)
  {
    BrightnessSaturates(codes, d, 20);
  }

  /** Group i of a command run is command i MSB-first followed by the extra clock. */
  lemma {:induction false} CommandsWithNopDecodes(cs: seq<Byte>, i: nat)
    requires i < |cs|
    ensures CommandsWithNop(cs)[9 * i .. 9 * i + 8] == BEBits(8, cs[i])
    ensures CommandsWithNop(cs)[9 * i + 8] == ExtraClk
    ensures DecodeBE(CommandsWithNop(cs)[9 * i .. 9 * i + 8]) == cs[i]
  {
    var t := CommandsWithNop(cs);
    if i == 0 {
      assert t[..8] == BEBits(8, cs[0]);
    } else {
      var rest := CommandsWithNop(cs[1..]);
      assert rest[9 * (i - 1) .. 9 * (i - 1) + 8] == BEBits(8, cs[i]) && rest[9 * (i - 1) + 8] == ExtraClk by {
        CommandsWithNopDecodes(cs[1..], i - 1);
        assert cs[1..][i - 1] == cs[i];
      }
      assert t[9 * i .. 9 * i + 8] == rest[9 * (i - 1) .. 9 * (i - 1) + 8];
      assert t[9 * i + 8] == rest[9 * (i - 1) + 8];
    }
    DecodeBEBits(8, cs[i]);
  }

  lemma {:induction false} CommandsWithNopClocked(cs: seq<Byte>)
    ensures AllClocked(CommandsWithNop(cs))
  {
    if cs != [] {
      CommandsWithNopClocked(cs[1..]);
      AllClockedAppend(BEBits(8, cs[0]), NopClock(true));
      AllClockedAppend(BEBits(8, cs[0]) + NopClock(true), CommandsWithNop(cs[1..]));
    }
  }

  /**
   * initDisplay configures the pin, idles it high, and then sends mode 100
   * followed by SYSDIS, COMS10, MSTMD or SLVMD, SYSEN, LEDON, BLOFF and
   * PWM + 15 in that order; the whole frame is well framed.
   */
  lemma InitFrameDecodes(codes: Codes, d: int, pin: uint8, master: bool, i: nat)
    requires i < 7
    ensures var f := InitFrame(codes, d, pin, master);
      f[0] == PinMode(pin) && f[1] == Release(d) && f[2] == Select(d) && f[69] == Release(d) &&
      DecodeBE(f[3..6]) == 4 &&
      DecodeBE(f[6 + 9 * i .. 6 + 9 * i + 8]) == ConfigCommands(codes, master)[i] &&
      f[6 + 9 * i + 8] == ExtraClk &&
      WellFramed(f)
  {
    var f := InitFrame(codes, d, pin, master);
    var cs := ConfigCommands(codes, master);
    assert DecodeBE(f[3..6]) == 4 by {
      PreCommandIsMode4();
      assert f[3..6] == PreCommandBits;
    }
    var w := CommandsWithNop(cs);
    assert w[9 * i .. 9 * i + 8] == BEBits(8, cs[i]) && w[9 * i + 8] == ExtraClk &&
      DecodeBE(w[9 * i .. 9 * i + 8]) == cs[i] by {
      CommandsWithNopDecodes(cs, i);
    }
    assert f[6 + 9 * i .. 6 + 9 * i + 8] == w[9 * i .. 9 * i + 8];
    assert f[6 + 9 * i + 8] == w[9 * i + 8];
    InitFrameFramed(codes, d, pin, master);
  }

  /** The bring-up frame idles the chip released, then selects it once and releases it once. */
  lemma InitFrameFramed(codes: Codes, d: int, pin: uint8, master: bool)
    ensures WellFramed(InitFrame(codes, d, pin, master))
  {
    var f := InitFrame(codes, d, pin, master);
    var cs := ConfigCommands(codes, master);
    var body := PreCommandBits + CommandsWithNop(cs);
    assert WellFramed([Select(d)] + body + [Release(d)]) by {
      CommandsWithNopClocked(cs);
      AllClockedAppend(PreCommandBits, CommandsWithNop(cs));
      SingleFrame(d, body);
    }
    var none: set<int> := {};
    assert Track(none, [PinMode(pin), Release(d)]) == Some(none) by {
      assert none - {d} == none;
      assert [PinMode(pin), Release(d)][1..] == [Release(d)];
      assert [Release(d)][1..] == [];
      assert Track(none, [Release(d)]) == Some(none);
    }
    assert f == [PinMode(pin), Release(d)] + ([Select(d)] + body + [Release(d)]);
    TrackAppend({}, [PinMode(pin), Release(d)], [Select(d)] + body + [Release(d)]);
  }

  /** Selecting displays 0 .. n-1 adds all of them to the selection. */
  lemma {:induction false} TrackSelectAll(sel: set<int>, n: nat)
    ensures Track(sel, SelectAll(n)) == Some(sel + Upto(n))
  {
    if n == 0 {
      assert sel + Upto(0) == sel;
    } else {
      assert SelectAll(n) == SelectAll(n - 1) + [Select(n - 1)];
      TrackSelectAll(sel, n - 1);
      TrackAppend(sel, SelectAll(n - 1), [Select(n - 1)]);
      var s := sel + Upto(n - 1);
      assert [Select(n - 1)][1..] == [];
      assert Track(s, [Select(n - 1)]) == Track(s + {n - 1}, []);
      assert s + {n - 1} == sel + Upto(n);
    }
  }

  /** Releasing displays 0 .. n-1 removes all of them from the selection. */
  lemma {:induction false} TrackReleaseAll(sel: set<int>, n: nat)
    ensures Track(sel, ReleaseAll(n)) == Some(sel - Upto(n))
  {
    if n == 0 {
      assert sel - Upto(0) == sel;
    } else {
      assert ReleaseAll(n) == ReleaseAll(n - 1) + [Release(n - 1)];
      TrackReleaseAll(sel, n - 1);
      TrackAppend(sel, ReleaseAll(n - 1), [Release(n - 1)]);
      var s := sel - Upto(n - 1);
      assert [Release(n - 1)][1..] == [];
      assert Track(s, [Release(n - 1)]) == Track(s - {n - 1}, []);
      assert s - {n - 1} == sel - Upto(n);
    }
  }

  /** Selecting every display, clocking, and releasing every display is well framed. */
  lemma BroadcastWellFramed(n: nat, body: seq<Event>)
    requires n >= 1 && AllClocked(body)
    ensures WellFramed(SelectAll(n) + body + ReleaseAll(n))
  {
    var none: set<int> := {};
    var all := Upto(n);
    assert n - 1 in all;
    TrackSelectAll(none, n);
    assert none + all == all;
    TrackClocked(all, body);
    TrackAppend(none, SelectAll(n), body);
    TrackReleaseAll(all, n);
    assert all - all == none;
    TrackAppend(none, SelectAll(n) + body, ReleaseAll(n));
  }

  /**
   * clear(paint = true), as written, sends the value 0xF in each of the 32
   * nibbles it writes: the receiver stores all-ones at RAM addresses 0 .. 31.
   */
  lemma ClearAllFrameWritesOnes(codes: Codes, n: nat)
    requires n >= 1
    ensures var f := ClearAllFrame(codes, n);
      f[..n] == SelectAll(n) && f[|f| - n..] == ReleaseAll(n) &&
      DecodeBE(f[n + 3 .. n + 10]) == 0 &&
      DecodeNibbles(f[n + 10 .. n + 138]) == seq(32, i => 15 as Byte) &&
      WellFramed(f)
  {
    var f := ClearAllFrame(codes, n);
    var h := WriteHeader(codes, 0);
    var ns := seq(32, i => 0xff as Byte);
    HeaderDecodes(codes, 0);
    assert f[n + 3 .. n + 10] == h[3..];
    assert f[n + 10 .. n + 138] == Nibbles(ns);
    DecodeNibblesRoundTrip(ns);
    assert seq(32, i requires 0 <= i < 32 => ns[i] & 15) == seq(32, i => 15 as Byte);
    NibblesClocked(ns);
    AllClockedAppend(h, Nibbles(ns));
    assert f == SelectAll(n) + (h + Nibbles(ns)) + ReleaseAll(n);
    BroadcastWellFramed(n, h + Nibbles(ns));
  }

  /**
   * The blanking frame writes zero at every one of the 64 RAM addresses, so
   * after it every pixel (x, y) with x < 32 and y < 8 is dark, whatever
   * address DisplayXYToIndex gives it.
   */
  lemma BlankAllFrameBlanks(codes: Codes, n: nat, x: uint8, y: uint8)
    requires n >= 1 && x < 32 && y < 8
    ensures var f := BlankAllFrame(codes, n);
      DecodeBE(f[n + 3 .. n + 10]) == 0 &&
      DecodeNibbles(f[n + 10 .. n + 266]) == seq(64, i => 0 as Byte) &&
      DisplayXYToIndex(x, y) < |DecodeNibbles(f[n + 10 .. n + 266])| &&
      DecodeNibbles(f[n + 10 .. n + 266])[DisplayXYToIndex(x, y)] == 0 &&
      WellFramed(f)
  {
    var f := BlankAllFrame(codes, n);
    var h := WriteHeader(codes, 0);
    var ns := seq(64, i => 0 as Byte);
    HeaderDecodes(codes, 0);
    assert f[n + 3 .. n + 10] == h[3..];
    assert f[n + 10 .. n + 266] == Nibbles(ns);
    DecodeNibblesRoundTrip(ns);
    assert seq(64, i requires 0 <= i < 64 => ns[i] & 15) == seq(64, i => 0 as Byte);
    NibblesClocked(ns);
    AllClockedAppend(h, Nibbles(ns));
    assert f == SelectAll(n) + (h + Nibbles(ns)) + ReleaseAll(n);
    BroadcastWellFramed(n, h + Nibbles(ns));
  }
}
