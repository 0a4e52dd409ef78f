/** The smallest failure-compatible option type, used for the optional shadow buffer. */
module Wrappers {
  datatype Option<T> = None | Some(value: T)
}

/**
 * The bit-banged serial bus shared by all chained HT1632 controllers, as an
 * append-only trace of abstract events.  Pin-register writes (`bitBlast`,
 * `pinMode`) and the `_nop()` settle delays are not modelled; each
 * clock-low / data / clock-high cycle becomes one `Bit` event.
 */
module Wire {
  import opened Wrappers

  /** An 8-bit value (`uint8_t`). Bitwise operators on it are the C ones. */
  type Byte = bv8

  datatype Event =
    | PinMode(pin: int)        // pinMode(pin, OUTPUT)
    | DataLevel(high: bool)    // the data line driven on its own, outside a clocked bit
    | ClockLevel(high: bool)   // the clock line driven on its own
    | Select(display: int)     // the chip-select line recorded for a display driven low
    | Release(display: int)    // that chip-select line driven high
    | Bit(high: bool)          // clock low, data line := high, clock high
    | ExtraClk                 // clock low, clock high, data line untouched

  /** `1 << i` for a bit position of a byte, written as a table. */
  function BitMask(i: nat): Byte
    requires i < 8
  {
    match i
    case 0 => 1 case 1 => 2 case 2 => 4 case 3 => 8
    case 4 => 16 case 5 => 32 case 6 => 64 case _ => 128
  }

  /** The table is the shift. */
  lemma BitMaskIsShift(i: nat)
    requires i < 8
    ensures BitMask(i) == (1 as bv8) << i
  {
    match i
    case 0 => case 1 => case 2 => case 3 => case 4 => case 5 => case 6 => case _ =>
  }

  /** `(v >> i) & 1` of the source, where `v` is a byte promoted to `int`. */
  predicate BitAt(v: Byte, i: nat)
  {
    i < 8 && v & BitMask(i) != 0
  }

  lemma BitAtIsShift(v: Byte, i: nat)
    requires i < 8
    ensures BitAt(v, i) == ((v >> i) & 1 == 1)
  {
    match i
    case 0 => case 1 => case 2 => case 3 => case 4 => case 5 => case 6 => case _ =>
  }

  /** The mask of the low `n` bits, i.e. `v & LowMask(n)` is `v mod 2^n`. */
  function LowMask(n: nat): Byte
    requires n <= 8
  {
    match n
    case 0 => 0 case 1 => 1 case 2 => 3 case 3 => 7 case 4 => 15
    case 5 => 31 case 6 => 63 case 7 => 127 case _ => 255
  }

  /** The bits `writeDataLE(n, v)` clocks out: bit 0 first. */
  function LEBits(n: nat, v: Byte): (r: seq<Event>)
    ensures |r| == n
  {
    seq(n, i requires 0 <= i < n => Bit(BitAt(v, i)))
  }

  /** The bits of `writeDataBE(n, v)` before the optional extra clock: bit n-1 first. */
  function BEBits(n: nat, v: Byte): (r: seq<Event>)
    ensures |r| == n
  {
    seq(n, i requires 0 <= i < n => Bit(BitAt(v, n - 1 - i)))
  }

  /** The extra clock pulse `writeDataBE` adds when `useNop` is set. */
  function NopClock(useNop: bool): seq<Event>
  {
    if useNop then [ExtraClk] else []
  }

  /** Every byte LSB-first, one after the other (the body of a sync frame). */
  function BytesLE(bs: seq<Byte>): (r: seq<Event>)
    ensures |r| == 8 * |bs|
  {
    if bs == [] then [] else LEBits(8, bs[0]) + BytesLE(bs[1..])
  }

  /** The level a receiver samples from one event. */
  function Level(e: Event): Byte
  {
    if e.Bit? && e.high then 1 else 0
  }

  /** What a receiver reassembles from bits sent LSB-first. */
  function DecodeLE(es: seq<Event>): Byte
    requires |es| <= 8
  {
    if es == [] then 0 else Level(es[0]) | (DecodeLE(es[1..]) << 1)
  }

  /** What a receiver reassembles from bits sent MSB-first. */
  function DecodeBE(es: seq<Event>): Byte
    requires |es| <= 8
  {
    if es == [] then 0 else (DecodeBE(es[..|es| - 1]) << 1) | Level(es[|es| - 1])
  }

  /** Groups of eight LSB-first bits reassembled into bytes. */
  function DecodeBytesLE(es: seq<Event>): (r: seq<Byte>)
    requires |es| % 8 == 0
    ensures |r| == |es| / 8
  {
    if es == [] then [] else [DecodeLE(es[..8])] + DecodeBytesLE(es[8..])
  }

  lemma BitShift(v: Byte, i: nat)
    requires i < 7
    ensures BitAt(v, i + 1) == BitAt(v >> 1, i)
  {}

  lemma MaskStep(v: Byte, n: nat)
    requires 0 < n <= 8
    ensures (v & 1) | (((v >> 1) & LowMask(n - 1)) << 1) == v & LowMask(n)
    ensures (((v >> 1) & LowMask(n - 1)) << 1) | (v & 1) == v & LowMask(n)
  {}

  /** Decoding the LSB-first bits of `writeDataLE(n, v)` gives back `v mod 2^n`. */
  lemma {:induction false} DecodeLEBits(n: nat, v: Byte)
    requires n <= 8
    ensures DecodeLE(LEBits(n, v)) == v & LowMask(n)
  {
    if n > 0 {
      var t := LEBits(n, v);
      assert t[1..] == LEBits(n - 1, v >> 1) by {
        forall i | 0 <= i < n - 1 ensures t[1..][i] == LEBits(n - 1, v >> 1)[i] {
          BitShift(v, i);
        }
      }
      DecodeLEBits(n - 1, v >> 1);
      DecodeLEStep(n, v, t);
    }
  }

  /** The first bit is bit 0 of v and the rest decode to the upper bits: together, v's low n bits. */
  lemma DecodeLEStep(n: nat, v: Byte, t: seq<Event>)
    requires 0 < n <= 8 && |t| == n && t[0] == Bit(BitAt(v, 0))
    requires DecodeLE(t[1..]) == (v >> 1) & LowMask(n - 1)
    ensures DecodeLE(t) == v & LowMask(n)
  {
    assert Level(t[0]) == v & 1;
    MaskStep(v, n);
  }

  /** Decoding the MSB-first bits of `writeDataBE(n, v)` gives back `v mod 2^n`. */
  lemma {:induction false} DecodeBEBits(n: nat, v: Byte)
    requires n <= 8
    ensures DecodeBE(BEBits(n, v)) == v & LowMask(n)
  {
    if n > 0 {
      var t := BEBits(n, v);
      var u := BEBits(n - 1, v >> 1);
      assert t[..n - 1] == u by {
        forall i | 0 <= i < n - 1 ensures t[i] == u[i] {
          BitShift(v, n - 2 - i);
        }
      }
      DecodeBEBits(n - 1, v >> 1);
      assert t[n - 1] == Bit(BitAt(v, 0));
      DecodeBEStep(n, v, t);
    }
  }

  /** The last bit is bit 0 of v and the rest decode to the upper bits: together, v's low n bits. */
  lemma DecodeBEStep(n: nat, v: Byte, t: seq<Event>)
    requires 0 < n <= 8 && |t| == n && t[n - 1] == Bit(BitAt(v, 0))
    requires DecodeBE(t[..n - 1]) == (v >> 1) & LowMask(n - 1)
    ensures DecodeBE(t) == v & LowMask(n)
  {
    assert Level(t[n - 1]) == v & 1;
    MaskStep(v, n);
  }

  /** The two bit orders are mirror images of each other. */
  lemma BEIsReversedLE(n: nat, v: Byte, i: nat)
    requires i < n
    ensures BEBits(n, v)[i] == LEBits(n, v)[n - 1 - i]
  {}

  lemma {:induction false} BytesLESnoc(bs: seq<Byte>, b: Byte)
    ensures BytesLE(bs + [b]) == BytesLE(bs) + LEBits(8, b)
  {
    if bs != [] {
      assert (bs + [b])[1..] == bs[1..] + [b];
      BytesLESnoc(bs[1..], b);
    } else {
      assert BytesLE([b]) == LEBits(8, b) + BytesLE([]);
    }
  }

  /** A receiver that reads the body of a sync frame byte by byte gets back every byte. */
  lemma {:induction false} DecodeBytesLERoundTrip(bs: seq<Byte>)
    ensures DecodeBytesLE(BytesLE(bs)) == bs
  {
    if bs != [] {
      var t := BytesLE(bs);
      assert t[..8] == LEBits(8, bs[0]);
      assert t[8..] == BytesLE(bs[1..]);
      DecodeLEBits(8, bs[0]);
      DecodeBytesLERoundTrip(bs[1..]);
    }
  }

  /** Nibbles sent one after the other, each as four bits LSB-first (`writeDataLE(4, ·)`). */
  function Nibbles(ns: seq<Byte>): (r: seq<Event>)
    ensures |r| == 4 * |ns|
  {
    if ns == [] then [] else LEBits(4, ns[0]) + Nibbles(ns[1..])
  }

  /** Groups of four LSB-first bits reassembled into nibbles. */
  function DecodeNibbles(es: seq<Event>): (r: seq<Byte>)
    requires |es| % 4 == 0
    ensures |r| == |es| / 4
  {
    if es == [] then [] else [DecodeLE(es[..4])] + DecodeNibbles(es[4..])
  }

  /** A receiver that reads nibbles gets back the low four bits of each value sent. */
  lemma {:induction false} DecodeNibblesRoundTrip(ns: seq<Byte>)
    ensures DecodeNibbles(Nibbles(ns)) == seq(|ns|, i requires 0 <= i < |ns| => ns[i] & 15)
  {
    if ns != [] {
      var t := Nibbles(ns);
      assert t[..4] == LEBits(4, ns[0]);
      assert t[4..] == Nibbles(ns[1..]);
      DecodeLEBits(4, ns[0]);
      DecodeNibblesRoundTrip(ns[1..]);
    }
  }

  lemma {:induction false} NibblesSnoc(ns: seq<Byte>, b: Byte)
    ensures Nibbles(ns + [b]) == Nibbles(ns) + LEBits(4, b)
  {
    if ns != [] {
      assert (ns + [b])[1..] == ns[1..] + [b];
      NibblesSnoc(ns[1..], b);
    } else {
      assert Nibbles([b]) == LEBits(4, b) + Nibbles([]);
    }
  }

  lemma {:induction false} NibblesClocked(ns: seq<Byte>)
    ensures AllClocked(Nibbles(ns))
  {
    if ns != [] {
      NibblesClocked(ns[1..]);
      AllClockedAppend(LEBits(4, ns[0]), Nibbles(ns[1..]));
    }
  }

  // ---------------------------------------------------------------------------
  // Bus discipline: data is clocked only while some chip is selected.

  /** True of the events that pulse the shared clock. */
  predicate Clocked(e: Event)
  {
    e.Bit? || e.ExtraClk?
  }

  /** A run of events that only pulses the clock. */
  predicate AllClocked(t: seq<Event>)
  {
    forall i :: 0 <= i < |t| ==> Clocked(t[i])
  }

  /** A slice of a concatenation that lies inside its first part. */
  lemma SliceLeft(a: seq<Event>, b: seq<Event>, i: nat, j: nat)
    requires i <= j <= |a|
    ensures (a + b)[i..j] == a[i..j]
  {
    assert forall k | 0 <= k < j - i :: (a + b)[i..j][k] == a[i..j][k];
  }

  /** A slice of a concatenation that lies inside its second part. */
  lemma SliceRight(a: seq<Event>, b: seq<Event>, i: nat, j: nat)
    requires |a| <= i <= j <= |a| + |b|
    ensures (a + b)[i..j] == b[i - |a| .. j - |a|]
  {
    assert forall k | 0 <= k < j - i :: (a + b)[i..j][k] == b[i - |a| .. j - |a|][k];
  }

  lemma AllClockedAppend(a: seq<Event>, b: seq<Event>)
    requires AllClocked(a) && AllClocked(b)
    ensures AllClocked(a + b)
  {
    forall i | 0 <= i < |a + b| ensures Clocked((a + b)[i]) {
      if i >= |a| {
        assert (a + b)[i] == b[i - |a|];
      }
    }
  }

  /**
   * Follows the set of selected displays through a trace. None when a clock
   * pulse happens while no chip is selected.
   */
  function Track(sel: set<int>, t: seq<Event>): Option<set<int>>
    decreases |t|
  {
    if t == [] then Some(sel)
    else match t[0]
      case Select(d) => Track(sel + {d}, t[1..])
      case Release(d) => Track(sel - {d}, t[1..])
      case Bit(_) => if sel == {} then None else Track(sel, t[1..])
      case ExtraClk => if sel == {} then None else Track(sel, t[1..])
      case _ => Track(sel, t[1..])
  }

  /**
   * A trace a bus operation may emit: starting with every chip deselected,
   * it clocks only while some chip is selected and deselects every chip it
   * selected before it ends.
   */
  predicate WellFramed(t: seq<Event>)
  {
    Track({}, t) == Some({})
  }

  lemma {:induction false} TrackAppend(sel: set<int>, a: seq<Event>, b: seq<Event>)
    ensures Track(sel, a + b) ==
      (match Track(sel, a) case None => None case Some(s) => Track(s, b))
    decreases |a|
  {
    if a != [] {
      assert (a + b)[1..] == a[1..] + b;
      match a[0]
      case Select(d) => TrackAppend(sel + {d}, a[1..], b);
      case Release(d) => TrackAppend(sel - {d}, a[1..], b);
      case Bit(_) => if sel != {} { TrackAppend(sel, a[1..], b); }
      case ExtraClk => if sel != {} { TrackAppend(sel, a[1..], b); }
      case PinMode(_) => TrackAppend(sel, a[1..], b);
      case DataLevel(_) => TrackAppend(sel, a[1..], b);
      case ClockLevel(_) => TrackAppend(sel, a[1..], b);
    } else {
      assert a + b == b;
    }
  }

  /** Clocking data while a chip is selected keeps the selection as it is. */
  lemma {:induction false} TrackClocked(sel: set<int>, t: seq<Event>)
    requires sel != {}
    requires AllClocked(t)
    ensures Track(sel, t) == Some(sel)
    decreases |t|
  {
    if t != [] {
      TrackClocked(sel, t[1..]);
    }
  }

  lemma {:induction false} BytesLEClocked(bs: seq<Byte>)
    ensures AllClocked(BytesLE(bs))
  {
    if bs != [] {
      BytesLEClocked(bs[1..]);
      AllClockedAppend(LEBits(8, bs[0]), BytesLE(bs[1..]));
    }
  }

  /** Two well-framed traces in a row are a well-framed trace. */
  lemma WellFramedAppend(a: seq<Event>, b: seq<Event>)
    requires WellFramed(a) && WellFramed(b)
    ensures WellFramed(a + b)
  {
    TrackAppend({}, a, b);
  }

  /** One chip selected around a run of clocked bits is well framed. */
  lemma SingleFrame(d: int, body: seq<Event>)
    requires AllClocked(body)
    ensures WellFramed([Select(d)] + body + [Release(d)])
  {
    TrackClocked({d}, body);
    var none: set<int> := {};
    assert none + {d} == {d};
    assert [Select(d)][1..] == [];
    assert Track({}, [Select(d)]) == Some({d});
    TrackAppend({}, [Select(d)], body);
    assert {d} - {d} == none;
    assert [Release(d)][1..] == [];
    assert Track({d}, [Release(d)]) == Some(none);
    TrackAppend({}, [Select(d)] + body, [Release(d)]);
  }
}
