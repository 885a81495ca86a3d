/**
 * The monochrome ramps: each palette family's shades, with a fixed list of
 * extra shades placed in front, deduplicated by one bit of a 64-bit mask and
 * sorted by luminance; the choice of ramp by family name; the exact accent
 * allow-list; and the lookup of the nearest shade.
 *
 * Luminance is a parameter `lum` of type `Rgb -> real` (the source computes
 * a 32-bit float), and the search for the nearest luminance is a parameter
 * `nearest` that returns an index of the list it is given.
 */
module Ramp {
  import opened Wrappers
  import opened HexColor

  /** IBM Gray, darkest to lightest. */
  const GRAY_RAMP: seq<string> := [
    "#161616", "#262626", "#393939", "#525252", "#6f6f6f", "#8d8d8d", "#a8a8a8", "#c6c6c6",
    "#e0e0e0", "#f4f4f4"
  ]

  /** IBM Cool Gray, darkest to lightest. */
  const COOL_GRAY_RAMP: seq<string> := [
    "#121619", "#21272a", "#343a3f", "#4d5358", "#697077", "#878d96", "#a2a9b0", "#c1c7cd",
    "#dde1e6", "#f2f4f8"
  ]

  /** IBM Warm Gray, darkest to lightest. */
  const WARM_GRAY_RAMP: seq<string> := [
    "#171414", "#272525", "#3c3838", "#565151", "#726e6e", "#8f8b8b", "#ada8a8", "#cac5c4",
    "#e5e0df", "#f7f3f2"
  ]

  /** Shades visited before every family's own. */
  const MONO_RAMP_EXTRAS: seq<string> := [
    "#000000", "#0b0b0b", "#0f0f0f", "#161616", "#1b1b1b", "#1e1e1e", "#212121", "#262626",
    "#393939", "#525252", "#dde1e6", "#f2f4f8", "#ffffff"
  ]

  /** The packed values of the accents that the monochrome pass replaces. */
  const MONO_ACCENT_CANDIDATES: seq<nat> := [
    0x08bdba, 0x33b1ff, 0x3ddbd9, 0x42be65, 0x78a9ff, 0x82cfff, 0xa6c8ff, 0xbe95ff, 0xee5396,
    0xff7eb6
  ]

  /** The accent that is replaced as well in the print variant. */
  const MONO_PRINT_EXTRA_ACCENTS: nat := 0x0f62fe

  /**
   * `pack_rgb`, which is defined outside the files modelled here: taken to be
   * the usual 24-bit packing `(r << 16) | (g << 8) | b`.
   */
  function PackRgb(c: Rgb): nat
  {
    c.r * 0x1_0000 + c.g * 0x100 + c.b
  }

  /** The packing loses nothing: each channel can be read back from the packed value. */
  lemma PackRgbChannels(c: Rgb)
    ensures PackRgb(c) < 0x100_0000
    ensures PackRgb(c) / 0x1_0000 % 0x100 == c.r
    ensures PackRgb(c) / 0x100 % 0x100 == c.g
    ensures PackRgb(c) % 0x100 == c.b
  {
    Bytes3(c.r, c.g, c.b);
  }

  /** Distinct colours pack to distinct values. */
  lemma PackRgbInjective(c: Rgb, d: Rgb)
    requires PackRgb(c) == PackRgb(d)
    ensures c == d
  {
    PackRgbChannels(c);
    PackRgbChannels(d);
  }

  /**
   * The bit of `seen` that `build_ramp` tests for a colour. The source takes
   * `packed % 64`; with the 24-bit packing those are the low six bits of the
   * blue channel (`SeenBitIsPacked`).
   */
  function SeenBit(c: Rgb): (bit: nat)
    ensures bit < 64
  {
    c.b % 64
  }

  /** The bit is `pack_rgb(rgb) % 64`, as `build_ramp` computes it. */
  lemma SeenBitIsPacked(c: Rgb)
    ensures SeenBit(c) == PackRgb(c) % 64
  {
    assert PackRgb(c) == 64 * (c.r * 0x400 + c.g * 4) + c.b;
  }

  /** Every hex string of a list is a valid colour. */
  predicate AllParse(hexes: seq<string>)
  {
    forall i :: 0 <= i < |hexes| ==> ParseHexRgbaU8(hexes[i]).Some?
  }

  /** The channels of each string of a list (`parse_hex_rgba_u8(hex).unwrap()`). */
  function Rgbs(hexes: seq<string>): (cs: seq<Rgb>)
    requires AllParse(hexes)
    ensures |cs| == |hexes|
    ensures forall i :: 0 <= i < |hexes| ==> ParseHexRgbaU8(hexes[i]) == Some((cs[i], ParseHexRgbaU8(hexes[i]).value.1))
  {
    seq(|hexes|, i requires 0 <= i < |hexes| => StrictRgb(hexes[i]))
  }

  /**
   * The colours that the loop of `build_ramp` keeps from position `i` on,
   * when the bits in `seen` are already set: a colour is skipped when its bit
   * is set, and otherwise kept and its bit set. `seen` is the set of the
   * positions of the one bits of the `u64` mask; every position is below 64,
   * so `1 << bit` never overflows.
   */
  function Kept(s: seq<Rgb>, i: nat, seen: set<nat>): seq<Rgb>
    requires i <= |s|
    decreases |s| - i
  {
    if i == |s| then []
    else if SeenBit(s[i]) in seen then Kept(s, i + 1, seen)
    else [s[i]] + Kept(s, i + 1, seen + {SeenBit(s[i])})
  }

  /** What `build_ramp` keeps of a list of colours, starting with an empty mask. */
  function Dedup(s: seq<Rgb>): seq<Rgb>
  {
    Kept(s, 0, {})
  }

  /** The bits of the first `n` colours. */
  function BitsOf(s: seq<Rgb>, n: nat): set<nat>
    requires n <= |s|
  {
    set j | 0 <= j < n :: SeenBit(s[j])
  }

  /** No colour before position `i` has the bit of colour `i`. */
  predicate FirstOfItsBit(s: seq<Rgb>, i: nat)
    requires i < |s|
  {
    forall j :: 0 <= j < i ==> SeenBit(s[j]) != SeenBit(s[i])
  }

  /** The colours from position `i` on that are the first of their bit, in order. */
  function FirstOfEachBit(s: seq<Rgb>, i: nat): seq<Rgb>
    requires i <= |s|
    decreases |s| - i
  {
    if i == |s| then []
    else (if FirstOfItsBit(s, i) then [s[i]] else []) + FirstOfEachBit(s, i + 1)
  }

  /**
   * The mask after the first `i` colours holds exactly their bits, so the
   * loop keeps a colour iff it is the first one with its bit (whether or not
   * it is the first one with its value).
   */
  lemma {:induction false} KeptIsFirstOfEachBit(s: seq<Rgb>, i: nat)
    requires i <= |s|
    ensures Kept(s, i, BitsOf(s, i)) == FirstOfEachBit(s, i)
    decreases |s| - i
  {
    if i < |s| {
      var seen, bit := BitsOf(s, i), SeenBit(s[i]);
      BitsOfStep(s, i);
      FirstIffNewBit(s, i);
      KeptIsFirstOfEachBit(s, i + 1);
      if bit in seen {
        assert seen + {bit} == seen;
        assert Kept(s, i, seen) == Kept(s, i + 1, BitsOf(s, i + 1));
        assert FirstOfEachBit(s, i) == FirstOfEachBit(s, i + 1);
      } else {
        assert Kept(s, i, seen) == [s[i]] + Kept(s, i + 1, BitsOf(s, i + 1));
        assert FirstOfEachBit(s, i) == [s[i]] + FirstOfEachBit(s, i + 1);
      }
    }
  }

  /** One more colour adds its bit to the bits seen so far. */
  lemma BitsOfStep(s: seq<Rgb>, i: nat)
    requires i < |s|
    ensures BitsOf(s, i + 1) == BitsOf(s, i) + {SeenBit(s[i])}
  {
    assert forall b :: b in BitsOf(s, i + 1) ==> b in BitsOf(s, i) || b == SeenBit(s[i]);
  }

  /** A colour is the first of its bit iff its bit is not among the earlier ones. */
  lemma FirstIffNewBit(s: seq<Rgb>, i: nat)
    requires i < |s|
    ensures FirstOfItsBit(s, i) <==> SeenBit(s[i]) !in BitsOf(s, i)
  {
    if SeenBit(s[i]) in BitsOf(s, i) {
      var j :| 0 <= j < i && SeenBit(s[j]) == SeenBit(s[i]);
    }
  }

  lemma DedupIsFirstOfEachBit(s: seq<Rgb>)
    ensures Dedup(s) == FirstOfEachBit(s, 0)
  {
    assert BitsOf(s, 0) == {};
    KeptIsFirstOfEachBit(s, 0);
  }

  /**
   * The kept colours have pairwise distinct bits, none of them already in
   * `seen`, and every one of them comes from the list.
   */
  lemma {:induction false} KeptDistinctBits(s: seq<Rgb>, i: nat, seen: set<nat>)
    requires i <= |s|
    ensures |Kept(s, i, seen)| <= |s| - i
    ensures forall k :: 0 <= k < |Kept(s, i, seen)| ==> SeenBit(Kept(s, i, seen)[k]) !in seen
    ensures forall k :: 0 <= k < |Kept(s, i, seen)| ==> Kept(s, i, seen)[k] in s[i..]
    ensures forall k, l :: 0 <= k < l < |Kept(s, i, seen)| ==>
      SeenBit(Kept(s, i, seen)[k]) != SeenBit(Kept(s, i, seen)[l])
    decreases |s| - i
  {
    if i < |s| {
      if SeenBit(s[i]) in seen {
        KeptDistinctBits(s, i + 1, seen);
      } else {
        KeptDistinctBits(s, i + 1, seen + {SeenBit(s[i])});
      }
      assert forall c :: c in s[i + 1..] ==> c in s[i..];
    }
  }

  /** Kept colours are distinct colours, since their bits differ. */
  lemma DedupDistinct(s: seq<Rgb>)
    ensures |Dedup(s)| <= |s|
    ensures forall k :: 0 <= k < |Dedup(s)| ==> Dedup(s)[k] in s
    ensures forall k, l :: 0 <= k < l < |Dedup(s)| ==> Dedup(s)[k] != Dedup(s)[l]
  {
    KeptDistinctBits(s, 0, {});
    assert s[0..] == s;
  }

  /** A ramp entry: a luminance and the colour it belongs to. */
  type Entry = (real, Rgb)

  /** The entries `build_ramp` pushes for the kept colours, in order. */
  function Entries(cs: seq<Rgb>, lum: Rgb -> real): (es: seq<Entry>)
    ensures |es| == |cs|
    ensures forall k :: 0 <= k < |cs| ==> es[k] == (lum(cs[k]), cs[k])
  {
    seq(|cs|, k requires 0 <= k < |cs| => (lum(cs[k]), cs[k]))
  }

  predicate SortedByLum(es: seq<Entry>)
  {
    forall i, j :: 0 <= i < j < |es| ==> es[i].0 <= es[j].0
  }

  /** Inserts an entry into a list sorted by luminance, before the first larger one. */
  function Insert(e: Entry, es: seq<Entry>): (r: seq<Entry>)
    requires SortedByLum(es)
    ensures SortedByLum(r)
    ensures multiset(r) == multiset(es) + multiset{e}
    decreases |es|
  {
    if es == [] then [e]
    else
      var h, tail := es[0], es[1..];
      assert es == [h] + tail;
      if e.0 <= h.0 then SortedPrepend(e, h, tail); [e] + es
      else
        SortedCons(h, tail);
        var rest := Insert(e, tail);
        InsertAfter(h, e, tail, rest);
        [h] + rest
  }

  /** An entry no larger than the head of a sorted list can go in front of it. */
  lemma SortedPrepend(e: Entry, h: Entry, tail: seq<Entry>)
    requires e.0 <= h.0 && SortedByLum([h] + tail)
    ensures SortedByLum([e, h] + tail)
  {
    var t := [h] + tail;
    var s := [e] + t;
    assert s == [e, h] + tail;
    forall i, j | 0 <= i < j < |s| ensures s[i].0 <= s[j].0 {
      assert s[j] == t[j - 1];
      if i == 0 {
        assert t[0] == h;
      } else {
        assert s[i] == t[i - 1];
      }
    }
  }

  /** The tail of a sorted list is sorted, and no entry in it is below the head. */
  lemma SortedCons(h: Entry, tail: seq<Entry>)
    requires SortedByLum([h] + tail)
    ensures SortedByLum(tail)
    ensures forall k :: 0 <= k < |tail| ==> h.0 <= tail[k].0
  {
    var s := [h] + tail;
    forall i, j | 0 <= i < j < |tail| ensures tail[i].0 <= tail[j].0 {
      assert tail[i] == s[i + 1] && tail[j] == s[j + 1];
    }
    forall k | 0 <= k < |tail| ensures h.0 <= tail[k].0 {
      assert s[0] == h && s[k + 1] == tail[k];
    }
  }

  /** Putting the head back in front of the tail with `e` inserted keeps the list sorted. */
  lemma InsertAfter(h: Entry, e: Entry, tail: seq<Entry>, rest: seq<Entry>)
    requires h.0 <= e.0
    requires forall k :: 0 <= k < |tail| ==> h.0 <= tail[k].0
    requires SortedByLum(rest) && multiset(rest) == multiset(tail) + multiset{e}
    ensures SortedByLum([h] + rest)
    ensures multiset([h] + rest) == multiset([h] + tail) + multiset{e}
  {
    BoundedBelow(h.0, e, tail, rest);
    var s := [h] + rest;
    assert forall k :: 1 <= k < |s| ==> s[k] == rest[k - 1];
  }

  /** Reordering a list of entries that are all at least `lo` keeps them at least `lo`. */
  lemma BoundedBelow(lo: real, e: Entry, tail: seq<Entry>, r: seq<Entry>)
    requires lo <= e.0
    requires forall k :: 0 <= k < |tail| ==> lo <= tail[k].0
    requires multiset(r) == multiset(tail) + multiset{e}
    ensures forall k :: 0 <= k < |r| ==> lo <= r[k].0
  {
    forall k | 0 <= k < |r|
      ensures lo <= r[k].0
    {
      assert r[k] in multiset(r);
      if r[k] != e {
        assert r[k] in multiset(tail);
        var j :| 0 <= j < |tail| && tail[j] == r[k];
      }
    }
  }

  /**
   * `entries.sort_unstable_by(|a, b| a.0.total_cmp(&b.0))`: sorted ascending
   * by luminance, and a permutation of the input. Which of two entries with
   * equal luminance comes first is not fixed by the library; this insertion
   * sort keeps their input order.
   */
  function SortByLum(es: seq<Entry>): (r: seq<Entry>)
    ensures SortedByLum(r)
    ensures multiset(r) == multiset(es)
    decreases |es|
  {
    if es == [] then []
    else
      assert es == [es[0]] + es[1..];
      Insert(es[0], SortByLum(es[1..]))
  }

  /** A ramp: luminances and colours, position by position. */
  datatype MonoRamp = MonoRamp(luminances: seq<real>, rgbs: seq<Rgb>)

  /** `entries.into_iter().unzip()`. */
  function Unzip(es: seq<Entry>): (ramp: MonoRamp)
    ensures |ramp.luminances| == |ramp.rgbs| == |es|
    ensures forall k :: 0 <= k < |es| ==> es[k] == (ramp.luminances[k], ramp.rgbs[k])
  {
    MonoRamp(seq(|es|, k requires 0 <= k < |es| => es[k].0),
             seq(|es|, k requires 0 <= k < |es| => es[k].1))
  }

  /** The ramp `build_ramp` builds from a family's shades. */
  function RampOf(base: seq<string>, lum: Rgb -> real): MonoRamp
    requires AllParse(MONO_RAMP_EXTRAS + base)
  {
    Unzip(SortByLum(Entries(Dedup(Rgbs(MONO_RAMP_EXTRAS + base)), lum)))
  }

  /**
   * `build_ramp`: one pass over the extras and then the family's shades,
   * setting a bit of `seen` per kept colour, then a sort and an unzip.
   */
  method BuildRamp(base: seq<string>, lum: Rgb -> real) returns (ramp: MonoRamp)
    requires AllParse(MONO_RAMP_EXTRAS + base)
    ensures ramp == RampOf(base, lum)
  {
    var chain := MONO_RAMP_EXTRAS + base;
    ghost var s := Rgbs(chain);
    ghost var kept: seq<Rgb> := [];
    var entries: seq<Entry> := [];
    var seen: set<nat> := {};
    for i := 0 to |chain|
      invariant Dedup(s) == kept + Kept(s, i, seen)
      invariant entries == Entries(kept, lum)
    {
      var rgb := ParseHexRgbaU8(chain[i]).value.0;
      assert rgb == s[i];
      var bit := PackRgb(rgb) % 64;
      SeenBitIsPacked(rgb);
      if bit in seen {
        Skip(s, i, seen, bit);
        continue;
      }
      Take(s, i, seen, bit);
      assert kept + Kept(s, i, seen) == (kept + [rgb]) + Kept(s, i + 1, seen + {bit});
      seen := seen + {bit};
      assert Entries(kept + [rgb], lum) == Entries(kept, lum) + [(lum(rgb), rgb)];
      entries := entries + [(lum(rgb), rgb)];
      kept := kept + [rgb];
    }
    assert kept == Dedup(s);
    entries := SortByLum(entries);
    ramp := Unzip(entries);
  }

  /**
   * The ramp built from a family: luminances ascending, each the luminance of
   * the colour beside it; the colours are exactly the kept ones, each once.
   */
  lemma RampProperties(base: seq<string>, lum: Rgb -> real)
    requires AllParse(MONO_RAMP_EXTRAS + base)
    ensures var ramp := RampOf(base, lum);
      && |ramp.luminances| == |ramp.rgbs| == |Dedup(Rgbs(MONO_RAMP_EXTRAS + base))| <= 13 + |base|
      && (forall i, j :: 0 <= i < j < |ramp.luminances| ==> ramp.luminances[i] <= ramp.luminances[j])
      && (forall k :: 0 <= k < |ramp.rgbs| ==> ramp.luminances[k] == lum(ramp.rgbs[k]))
      && (forall c :: c in ramp.rgbs <==> c in Dedup(Rgbs(MONO_RAMP_EXTRAS + base)))
  {
    DedupDistinct(Rgbs(MONO_RAMP_EXTRAS + base));
    SortedRamp(Dedup(Rgbs(MONO_RAMP_EXTRAS + base)), lum);
  }

  /** Sorting and unzipping the entries of some colours keeps the colours and pairs each with its luminance. */
  lemma SortedRamp(kept: seq<Rgb>, lum: Rgb -> real)
    ensures var ramp := Unzip(SortByLum(Entries(kept, lum)));
      && |ramp.luminances| == |ramp.rgbs| == |kept|
      && (forall i, j :: 0 <= i < j < |ramp.luminances| ==> ramp.luminances[i] <= ramp.luminances[j])
      && (forall k :: 0 <= k < |ramp.rgbs| ==> ramp.luminances[k] == lum(ramp.rgbs[k]))
      && (forall c :: c in ramp.rgbs <==> c in kept)
  {
    var es := Entries(kept, lum);
    var sorted := SortByLum(es);
    var ramp := Unzip(sorted);
    assert |sorted| == |multiset(sorted)| == |multiset(es)| == |es|;
    forall k | 0 <= k < |sorted| ensures sorted[k] in es && ramp.luminances[k] == lum(ramp.rgbs[k]) {
      assert sorted[k] in multiset(sorted);
    }
    forall c ensures c in ramp.rgbs <==> c in kept {
      if c in ramp.rgbs {
        var k :| 0 <= k < |ramp.rgbs| && ramp.rgbs[k] == c;
        assert sorted[k] in multiset(es);
        var l :| 0 <= l < |es| && es[l] == sorted[k];
        assert kept[l] == c;
      }
      if c in kept {
        var l :| 0 <= l < |kept| && kept[l] == c;
        assert es[l] in multiset(sorted);
        var k :| 0 <= k < |sorted| && sorted[k] == es[l];
        assert ramp.rgbs[k] == c;
      }
    }
  }


  /** A seven-character string spelling each channel's two digits parses to that colour. */
  lemma Decodes(hex: string, c: Rgb)
    requires |hex| == 7 && hex[0] == '#'
    requires hex[1] == HEX_DIGITS[c.r / 16] && hex[2] == HEX_DIGITS[c.r % 16]
    requires hex[3] == HEX_DIGITS[c.g / 16] && hex[4] == HEX_DIGITS[c.g % 16]
    requires hex[5] == HEX_DIGITS[c.b / 16] && hex[6] == HEX_DIGITS[c.b % 16]
    ensures ParseHexRgbaU8(hex) == Some((c, None))
  {
    FormatsAs(hex, c);
    ParseFormat(c, None);
  }

  /** The extra shades as colours. */
  lemma DecodeExtras()
    ensures forall i :: 0 <= i < |MONO_RAMP_EXTRAS| ==> ParseHexRgbaU8(MONO_RAMP_EXTRAS[i]) == Some((EXTRAS_RGBS[i], None))
  {
    forall i | 0 <= i < |MONO_RAMP_EXTRAS|
      ensures ParseHexRgbaU8(MONO_RAMP_EXTRAS[i]) == Some((EXTRAS_RGBS[i], None))
    {
      if i == 0 {
        Decodes(MONO_RAMP_EXTRAS[0], EXTRAS_RGBS[0]);
      } else if i == 1 {
        Decodes(MONO_RAMP_EXTRAS[1], EXTRAS_RGBS[1]);
      } else if i == 2 {
        Decodes(MONO_RAMP_EXTRAS[2], EXTRAS_RGBS[2]);
      } else if i == 3 {
        Decodes(MONO_RAMP_EXTRAS[3], EXTRAS_RGBS[3]);
      } else if i == 4 {
        Decodes(MONO_RAMP_EXTRAS[4], EXTRAS_RGBS[4]);
      } else if i == 5 {
        Decodes(MONO_RAMP_EXTRAS[5], EXTRAS_RGBS[5]);
      } else if i == 6 {
        Decodes(MONO_RAMP_EXTRAS[6], EXTRAS_RGBS[6]);
      } else if i == 7 {
        Decodes(MONO_RAMP_EXTRAS[7], EXTRAS_RGBS[7]);
      } else if i == 8 {
        Decodes(MONO_RAMP_EXTRAS[8], EXTRAS_RGBS[8]);
      } else if i == 9 {
        Decodes(MONO_RAMP_EXTRAS[9], EXTRAS_RGBS[9]);
      } else if i == 10 {
        Decodes(MONO_RAMP_EXTRAS[10], EXTRAS_RGBS[10]);
      } else if i == 11 {
        Decodes(MONO_RAMP_EXTRAS[11], EXTRAS_RGBS[11]);
      } else if i == 12 {
        Decodes(MONO_RAMP_EXTRAS[12], EXTRAS_RGBS[12]);
      }
    }
  }

  /** The colours of the extra shades, in order. */
  const EXTRAS_RGBS: seq<Rgb> := [
    Rgb(0x00, 0x00, 0x00),
    Rgb(0x0b, 0x0b, 0x0b),
    Rgb(0x0f, 0x0f, 0x0f),
    Rgb(0x16, 0x16, 0x16),
    Rgb(0x1b, 0x1b, 0x1b),
    Rgb(0x1e, 0x1e, 0x1e),
    Rgb(0x21, 0x21, 0x21),
    Rgb(0x26, 0x26, 0x26),
    Rgb(0x39, 0x39, 0x39),
    Rgb(0x52, 0x52, 0x52),
    Rgb(0xdd, 0xe1, 0xe6),
    Rgb(0xf2, 0xf4, 0xf8),
    Rgb(0xff, 0xff, 0xff)
  ]

  /** The colours of GRAY_RAMP, in order. */
  const GRAY_RAMP_RGBS: seq<Rgb> := [
    Rgb(0x16, 0x16, 0x16),
    Rgb(0x26, 0x26, 0x26),
    Rgb(0x39, 0x39, 0x39),
    Rgb(0x52, 0x52, 0x52),
    Rgb(0x6f, 0x6f, 0x6f),
    Rgb(0x8d, 0x8d, 0x8d),
    Rgb(0xa8, 0xa8, 0xa8),
    Rgb(0xc6, 0xc6, 0xc6),
    Rgb(0xe0, 0xe0, 0xe0),
    Rgb(0xf4, 0xf4, 0xf4)
  ]

  lemma DecodeGray()
    ensures forall i :: 0 <= i < |GRAY_RAMP| ==> ParseHexRgbaU8(GRAY_RAMP[i]) == Some((GRAY_RAMP_RGBS[i], None))
  {
    forall i | 0 <= i < |GRAY_RAMP|
      ensures ParseHexRgbaU8(GRAY_RAMP[i]) == Some((GRAY_RAMP_RGBS[i], None))
    {
      if i == 0 {
        Decodes(GRAY_RAMP[0], GRAY_RAMP_RGBS[0]);
      } else if i == 1 {
        Decodes(GRAY_RAMP[1], GRAY_RAMP_RGBS[1]);
      } else if i == 2 {
        Decodes(GRAY_RAMP[2], GRAY_RAMP_RGBS[2]);
      } else if i == 3 {
        Decodes(GRAY_RAMP[3], GRAY_RAMP_RGBS[3]);
      } else if i == 4 {
        Decodes(GRAY_RAMP[4], GRAY_RAMP_RGBS[4]);
      } else if i == 5 {
        Decodes(GRAY_RAMP[5], GRAY_RAMP_RGBS[5]);
      } else if i == 6 {
        Decodes(GRAY_RAMP[6], GRAY_RAMP_RGBS[6]);
      } else if i == 7 {
        Decodes(GRAY_RAMP[7], GRAY_RAMP_RGBS[7]);
      } else if i == 8 {
        Decodes(GRAY_RAMP[8], GRAY_RAMP_RGBS[8]);
      } else if i == 9 {
        Decodes(GRAY_RAMP[9], GRAY_RAMP_RGBS[9]);
      }
    }
  }

  /** The extras and then GRAY_RAMP all parse, to the colours listed. */
  lemma GrayChain()
    ensures AllParse(MONO_RAMP_EXTRAS + GRAY_RAMP)
    ensures Rgbs(MONO_RAMP_EXTRAS + GRAY_RAMP) == EXTRAS_RGBS + GRAY_RAMP_RGBS
  {
    DecodeExtras();
    DecodeGray();
    var chain := MONO_RAMP_EXTRAS + GRAY_RAMP;
    forall i | 0 <= i < |chain|
      ensures ParseHexRgbaU8(chain[i]) == Some(((EXTRAS_RGBS + GRAY_RAMP_RGBS)[i], None))
    {
      if i >= 13 {
        assert chain[i] == GRAY_RAMP[i - 13];
      }
    }
  }

  /** The colours of COOL_GRAY_RAMP, in order. */
  const COOL_GRAY_RAMP_RGBS: seq<Rgb> := [
    Rgb(0x12, 0x16, 0x19),
    Rgb(0x21, 0x27, 0x2a),
    Rgb(0x34, 0x3a, 0x3f),
    Rgb(0x4d, 0x53, 0x58),
    Rgb(0x69, 0x70, 0x77),
    Rgb(0x87, 0x8d, 0x96),
    Rgb(0xa2, 0xa9, 0xb0),
    Rgb(0xc1, 0xc7, 0xcd),
    Rgb(0xdd, 0xe1, 0xe6),
    Rgb(0xf2, 0xf4, 0xf8)
  ]

  lemma DecodeCoolGray()
    ensures forall i :: 0 <= i < |COOL_GRAY_RAMP| ==> ParseHexRgbaU8(COOL_GRAY_RAMP[i]) == Some((COOL_GRAY_RAMP_RGBS[i], None))
  {
    forall i | 0 <= i < |COOL_GRAY_RAMP|
      ensures ParseHexRgbaU8(COOL_GRAY_RAMP[i]) == Some((COOL_GRAY_RAMP_RGBS[i], None))
    {
      if i == 0 {
        Decodes(COOL_GRAY_RAMP[0], COOL_GRAY_RAMP_RGBS[0]);
      } else if i == 1 {
        Decodes(COOL_GRAY_RAMP[1], COOL_GRAY_RAMP_RGBS[1]);
      } else if i == 2 {
        Decodes(COOL_GRAY_RAMP[2], COOL_GRAY_RAMP_RGBS[2]);
      } else if i == 3 {
        Decodes(COOL_GRAY_RAMP[3], COOL_GRAY_RAMP_RGBS[3]);
      } else if i == 4 {
        Decodes(COOL_GRAY_RAMP[4], COOL_GRAY_RAMP_RGBS[4]);
      } else if i == 5 {
        Decodes(COOL_GRAY_RAMP[5], COOL_GRAY_RAMP_RGBS[5]);
      } else if i == 6 {
        Decodes(COOL_GRAY_RAMP[6], COOL_GRAY_RAMP_RGBS[6]);
      } else if i == 7 {
        Decodes(COOL_GRAY_RAMP[7], COOL_GRAY_RAMP_RGBS[7]);
      } else if i == 8 {
        Decodes(COOL_GRAY_RAMP[8], COOL_GRAY_RAMP_RGBS[8]);
      } else if i == 9 {
        Decodes(COOL_GRAY_RAMP[9], COOL_GRAY_RAMP_RGBS[9]);
      }
    }
  }

  /** The extras and then COOL_GRAY_RAMP all parse, to the colours listed. */
  lemma CoolGrayChain()
    ensures AllParse(MONO_RAMP_EXTRAS + COOL_GRAY_RAMP)
    ensures Rgbs(MONO_RAMP_EXTRAS + COOL_GRAY_RAMP) == EXTRAS_RGBS + COOL_GRAY_RAMP_RGBS
  {
    DecodeExtras();
    DecodeCoolGray();
    var chain := MONO_RAMP_EXTRAS + COOL_GRAY_RAMP;
    forall i | 0 <= i < |chain|
      ensures ParseHexRgbaU8(chain[i]) == Some(((EXTRAS_RGBS + COOL_GRAY_RAMP_RGBS)[i], None))
    {
      if i >= 13 {
        assert chain[i] == COOL_GRAY_RAMP[i - 13];
      }
    }
  }

  /** The colours of WARM_GRAY_RAMP, in order. */
  const WARM_GRAY_RAMP_RGBS: seq<Rgb> := [
    Rgb(0x17, 0x14, 0x14),
    Rgb(0x27, 0x25, 0x25),
    Rgb(0x3c, 0x38, 0x38),
    Rgb(0x56, 0x51, 0x51),
    Rgb(0x72, 0x6e, 0x6e),
    Rgb(0x8f, 0x8b, 0x8b),
    Rgb(0xad, 0xa8, 0xa8),
    Rgb(0xca, 0xc5, 0xc4),
    Rgb(0xe5, 0xe0, 0xdf),
    Rgb(0xf7, 0xf3, 0xf2)
  ]

  lemma DecodeWarmGray()
    ensures forall i :: 0 <= i < |WARM_GRAY_RAMP| ==> ParseHexRgbaU8(WARM_GRAY_RAMP[i]) == Some((WARM_GRAY_RAMP_RGBS[i], None))
  {
    forall i | 0 <= i < |WARM_GRAY_RAMP|
      ensures ParseHexRgbaU8(WARM_GRAY_RAMP[i]) == Some((WARM_GRAY_RAMP_RGBS[i], None))
    {
      if i == 0 {
        Decodes(WARM_GRAY_RAMP[0], WARM_GRAY_RAMP_RGBS[0]);
      } else if i == 1 {
        Decodes(WARM_GRAY_RAMP[1], WARM_GRAY_RAMP_RGBS[1]);
      } else if i == 2 {
        Decodes(WARM_GRAY_RAMP[2], WARM_GRAY_RAMP_RGBS[2]);
      } else if i == 3 {
        Decodes(WARM_GRAY_RAMP[3], WARM_GRAY_RAMP_RGBS[3]);
      } else if i == 4 {
        Decodes(WARM_GRAY_RAMP[4], WARM_GRAY_RAMP_RGBS[4]);
      } else if i == 5 {
        Decodes(WARM_GRAY_RAMP[5], WARM_GRAY_RAMP_RGBS[5]);
      } else if i == 6 {
        Decodes(WARM_GRAY_RAMP[6], WARM_GRAY_RAMP_RGBS[6]);
      } else if i == 7 {
        Decodes(WARM_GRAY_RAMP[7], WARM_GRAY_RAMP_RGBS[7]);
      } else if i == 8 {
        Decodes(WARM_GRAY_RAMP[8], WARM_GRAY_RAMP_RGBS[8]);
      } else if i == 9 {
        Decodes(WARM_GRAY_RAMP[9], WARM_GRAY_RAMP_RGBS[9]);
      }
    }
  }

  /** The extras and then WARM_GRAY_RAMP all parse, to the colours listed. */
  lemma WarmGrayChain()
    ensures AllParse(MONO_RAMP_EXTRAS + WARM_GRAY_RAMP)
    ensures Rgbs(MONO_RAMP_EXTRAS + WARM_GRAY_RAMP) == EXTRAS_RGBS + WARM_GRAY_RAMP_RGBS
  {
    DecodeExtras();
    DecodeWarmGray();
    var chain := MONO_RAMP_EXTRAS + WARM_GRAY_RAMP;
    forall i | 0 <= i < |chain|
      ensures ParseHexRgbaU8(chain[i]) == Some(((EXTRAS_RGBS + WARM_GRAY_RAMP_RGBS)[i], None))
    {
      if i >= 13 {
        assert chain[i] == WARM_GRAY_RAMP[i - 13];
      }
    }
  }

  /** A colour whose bit is already set is skipped. */
  lemma Skip(s: seq<Rgb>, i: nat, seen: set<nat>, bit: nat)
    requires i < |s| && s[i].b % 64 == bit && bit in seen
    ensures Kept(s, i, seen) == Kept(s, i + 1, seen)
  {
  }

  /** A colour whose bit is clear is kept, and its bit set. */
  lemma Take(s: seq<Rgb>, i: nat, seen: set<nat>, bit: nat)
    requires i < |s| && s[i].b % 64 == bit && bit !in seen
    ensures Kept(s, i, seen) == [s[i]] + Kept(s, i + 1, seen + {bit})
  {
  }

  lemma ExtrasSteps0(s: seq<Rgb>)
    requires |s| == 23
    requires s[0].b == 0x00
    requires s[1].b == 0x0b
    requires s[2].b == 0x0f
    requires s[3].b == 0x16
    ensures Kept(s, 0, {}) ==
      [s[0], s[1], s[2], s[3]] + Kept(s, 4, {0, 11, 15, 22})
  {
    var m: set<nat> := {};
    Take(s, 0, m, 0);
    m := m + {0};
    Take(s, 1, m, 11);
    m := m + {11};
    Take(s, 2, m, 15);
    m := m + {15};
    Take(s, 3, m, 22);
    m := m + {22};
    assert m == {0, 11, 15, 22};
  }

  lemma ExtrasSteps4(s: seq<Rgb>)
    requires |s| == 23
    requires s[4].b == 0x1b
    requires s[5].b == 0x1e
    requires s[6].b == 0x21
    requires s[7].b == 0x26
    ensures Kept(s, 4, {0, 11, 15, 22}) ==
      [s[4], s[5], s[6], s[7]] + Kept(s, 8, {0, 11, 15, 22, 27, 30, 33, 38})
  {
    var m: set<nat> := {0, 11, 15, 22};
    Take(s, 4, m, 27);
    m := m + {27};
    Take(s, 5, m, 30);
    m := m + {30};
    Take(s, 6, m, 33);
    m := m + {33};
    Take(s, 7, m, 38);
    m := m + {38};
    assert m == {0, 11, 15, 22, 27, 30, 33, 38};
  }

  lemma ExtrasSteps8(s: seq<Rgb>)
    requires |s| == 23
    requires s[8].b == 0x39
    requires s[9].b == 0x52
    requires s[10].b == 0xe6
    requires s[11].b == 0xf8
    ensures Kept(s, 8, {0, 11, 15, 22, 27, 30, 33, 38}) ==
      [s[8], s[9], s[11]] + Kept(s, 12, {0, 11, 15, 18, 22, 27, 30, 33, 38, 56, 57})
  {
    var m: set<nat> := {0, 11, 15, 22, 27, 30, 33, 38};
    Take(s, 8, m, 57);
    m := m + {57};
    Take(s, 9, m, 18);
    m := m + {18};
    Skip(s, 10, m, 38);
    Take(s, 11, m, 56);
    m := m + {56};
    assert m == {0, 11, 15, 18, 22, 27, 30, 33, 38, 56, 57};
  }

  lemma GraySteps12(s: seq<Rgb>)
    requires |s| == 23
    requires s[12].b == 0xff
    requires s[13].b == 0x16
    requires s[14].b == 0x26
    requires s[15].b == 0x39
    ensures Kept(s, 12, {0, 11, 15, 18, 22, 27, 30, 33, 38, 56, 57}) ==
      [s[12]] + Kept(s, 16, {0, 11, 15, 18, 22, 27, 30, 33, 38, 56, 57, 63})
  {
    var m: set<nat> := {0, 11, 15, 18, 22, 27, 30, 33, 38, 56, 57};
    Take(s, 12, m, 63);
    m := m + {63};
    Skip(s, 13, m, 22);
    Skip(s, 14, m, 38);
    Skip(s, 15, m, 57);
    assert m == {0, 11, 15, 18, 22, 27, 30, 33, 38, 56, 57, 63};
  }

  lemma GraySteps16(s: seq<Rgb>)
    requires |s| == 23
    requires s[16].b == 0x52
    requires s[17].b == 0x6f
    requires s[18].b == 0x8d
    requires s[19].b == 0xa8
    ensures Kept(s, 16, {0, 11, 15, 18, 22, 27, 30, 33, 38, 56, 57, 63}) ==
      [s[17], s[18], s[19]] + Kept(s, 20, {0, 11, 13, 15, 18, 22, 27, 30, 33, 38, 40, 47, 56, 57, 63})
  {
    var m: set<nat> := {0, 11, 15, 18, 22, 27, 30, 33, 38, 56, 57, 63};
    Skip(s, 16, m, 18);
    Take(s, 17, m, 47);
    m := m + {47};
    Take(s, 18, m, 13);
    m := m + {13};
    Take(s, 19, m, 40);
    m := m + {40};
    assert m == {0, 11, 13, 15, 18, 22, 27, 30, 33, 38, 40, 47, 56, 57, 63};
  }

  lemma GraySteps20(s: seq<Rgb>)
    requires |s| == 23
    requires s[20].b == 0xc6
    requires s[21].b == 0xe0
    requires s[22].b == 0xf4
    ensures Kept(s, 20, {0, 11, 13, 15, 18, 22, 27, 30, 33, 38, 40, 47, 56, 57, 63}) ==
      [s[20], s[21], s[22]] + Kept(s, 23, {0, 6, 11, 13, 15, 18, 22, 27, 30, 32, 33, 38, 40, 47, 52, 56, 57, 63})
  {
    var m: set<nat> := {0, 11, 13, 15, 18, 22, 27, 30, 33, 38, 40, 47, 56, 57, 63};
    Take(s, 20, m, 6);
    m := m + {6};
    Take(s, 21, m, 32);
    m := m + {32};
    Take(s, 22, m, 52);
    m := m + {52};
    assert m == {0, 6, 11, 13, 15, 18, 22, 27, 30, 32, 33, 38, 40, 47, 52, 56, 57, 63};
  }

  lemma GrayFrom20(s: seq<Rgb>)
    requires |s| == 23
    requires s[20].b == 0xc6
    requires s[21].b == 0xe0
    requires s[22].b == 0xf4
    ensures Kept(s, 20, {0, 11, 13, 15, 18, 22, 27, 30, 33, 38, 40, 47, 56, 57, 63}) == [s[20], s[21], s[22]]
  {
    GraySteps20(s);
  }

  lemma GrayFrom16(s: seq<Rgb>)
    requires |s| == 23
    requires s[16].b == 0x52
    requires s[17].b == 0x6f
    requires s[18].b == 0x8d
    requires s[19].b == 0xa8
    requires s[20].b == 0xc6
    requires s[21].b == 0xe0
    requires s[22].b == 0xf4
    ensures Kept(s, 16, {0, 11, 15, 18, 22, 27, 30, 33, 38, 56, 57, 63}) == [s[17], s[18], s[19], s[20], s[21], s[22]]
  {
    GraySteps16(s);
    GrayFrom20(s);
  }

  lemma GrayFrom12(s: seq<Rgb>)
    requires |s| == 23
    requires s[12].b == 0xff
    requires s[13].b == 0x16
    requires s[14].b == 0x26
    requires s[15].b == 0x39
    requires s[16].b == 0x52
    requires s[17].b == 0x6f
    requires s[18].b == 0x8d
    requires s[19].b == 0xa8
    requires s[20].b == 0xc6
    requires s[21].b == 0xe0
    requires s[22].b == 0xf4
    ensures Kept(s, 12, {0, 11, 15, 18, 22, 27, 30, 33, 38, 56, 57}) == [s[12], s[17], s[18], s[19], s[20], s[21], s[22]]
  {
    GraySteps12(s);
    GrayFrom16(s);
  }

  lemma GrayFrom8(s: seq<Rgb>)
    requires |s| == 23
    requires s[8].b == 0x39
    requires s[9].b == 0x52
    requires s[10].b == 0xe6
    requires s[11].b == 0xf8
    requires s[12].b == 0xff
    requires s[13].b == 0x16
    requires s[14].b == 0x26
    requires s[15].b == 0x39
    requires s[16].b == 0x52
    requires s[17].b == 0x6f
    requires s[18].b == 0x8d
    requires s[19].b == 0xa8
    requires s[20].b == 0xc6
    requires s[21].b == 0xe0
    requires s[22].b == 0xf4
    ensures Kept(s, 8, {0, 11, 15, 22, 27, 30, 33, 38}) == [s[8], s[9], s[11], s[12], s[17], s[18], s[19], s[20], s[21], s[22]]
  {
    ExtrasSteps8(s);
    GrayFrom12(s);
  }

  lemma GrayFrom4(s: seq<Rgb>)
    requires |s| == 23
    requires s[4].b == 0x1b
    requires s[5].b == 0x1e
    requires s[6].b == 0x21
    requires s[7].b == 0x26
    requires s[8].b == 0x39
    requires s[9].b == 0x52
    requires s[10].b == 0xe6
    requires s[11].b == 0xf8
    requires s[12].b == 0xff
    requires s[13].b == 0x16
    requires s[14].b == 0x26
    requires s[15].b == 0x39
    requires s[16].b == 0x52
    requires s[17].b == 0x6f
    requires s[18].b == 0x8d
    requires s[19].b == 0xa8
    requires s[20].b == 0xc6
    requires s[21].b == 0xe0
    requires s[22].b == 0xf4
    ensures Kept(s, 4, {0, 11, 15, 22}) == [s[4], s[5], s[6], s[7], s[8], s[9], s[11], s[12], s[17], s[18], s[19], s[20], s[21], s[22]]
  {
    ExtrasSteps4(s);
    GrayFrom8(s);
  }

  lemma GrayFrom0(s: seq<Rgb>)
    requires |s| == 23
    requires s[0].b == 0x00
    requires s[1].b == 0x0b
    requires s[2].b == 0x0f
    requires s[3].b == 0x16
    requires s[4].b == 0x1b
    requires s[5].b == 0x1e
    requires s[6].b == 0x21
    requires s[7].b == 0x26
    requires s[8].b == 0x39
    requires s[9].b == 0x52
    requires s[10].b == 0xe6
    requires s[11].b == 0xf8
    requires s[12].b == 0xff
    requires s[13].b == 0x16
    requires s[14].b == 0x26
    requires s[15].b == 0x39
    requires s[16].b == 0x52
    requires s[17].b == 0x6f
    requires s[18].b == 0x8d
    requires s[19].b == 0xa8
    requires s[20].b == 0xc6
    requires s[21].b == 0xe0
    requires s[22].b == 0xf4
    ensures Kept(s, 0, {}) == [s[0], s[1], s[2], s[3], s[4], s[5], s[6], s[7], s[8], s[9], s[11], s[12], s[17], s[18], s[19], s[20], s[21], s[22]]
  {
    ExtrasSteps0(s);
    GrayFrom4(s);
  }

  /** The extras followed by GRAY_RAMP, as one list. */
  lemma GrayList()
    ensures EXTRAS_RGBS + GRAY_RAMP_RGBS == [
      Rgb(0x00, 0x00, 0x00),
      Rgb(0x0b, 0x0b, 0x0b),
      Rgb(0x0f, 0x0f, 0x0f),
      Rgb(0x16, 0x16, 0x16),
      Rgb(0x1b, 0x1b, 0x1b),
      Rgb(0x1e, 0x1e, 0x1e),
      Rgb(0x21, 0x21, 0x21),
      Rgb(0x26, 0x26, 0x26),
      Rgb(0x39, 0x39, 0x39),
      Rgb(0x52, 0x52, 0x52),
      Rgb(0xdd, 0xe1, 0xe6),
      Rgb(0xf2, 0xf4, 0xf8),
      Rgb(0xff, 0xff, 0xff),
      Rgb(0x16, 0x16, 0x16),
      Rgb(0x26, 0x26, 0x26),
      Rgb(0x39, 0x39, 0x39),
      Rgb(0x52, 0x52, 0x52),
      Rgb(0x6f, 0x6f, 0x6f),
      Rgb(0x8d, 0x8d, 0x8d),
      Rgb(0xa8, 0xa8, 0xa8),
      Rgb(0xc6, 0xc6, 0xc6),
      Rgb(0xe0, 0xe0, 0xe0),
      Rgb(0xf4, 0xf4, 0xf4)
    ]
  {
  }

  /** What the loop keeps of the extras and GRAY_RAMP. */
  lemma DedupGray()
    ensures Dedup(EXTRAS_RGBS + GRAY_RAMP_RGBS) == [
      Rgb(0x00, 0x00, 0x00),
      Rgb(0x0b, 0x0b, 0x0b),
      Rgb(0x0f, 0x0f, 0x0f),
      Rgb(0x16, 0x16, 0x16),
      Rgb(0x1b, 0x1b, 0x1b),
      Rgb(0x1e, 0x1e, 0x1e),
      Rgb(0x21, 0x21, 0x21),
      Rgb(0x26, 0x26, 0x26),
      Rgb(0x39, 0x39, 0x39),
      Rgb(0x52, 0x52, 0x52),
      Rgb(0xf2, 0xf4, 0xf8),
      Rgb(0xff, 0xff, 0xff),
      Rgb(0x6f, 0x6f, 0x6f),
      Rgb(0x8d, 0x8d, 0x8d),
      Rgb(0xa8, 0xa8, 0xa8),
      Rgb(0xc6, 0xc6, 0xc6),
      Rgb(0xe0, 0xe0, 0xe0),
      Rgb(0xf4, 0xf4, 0xf4)
    ]
  {
    GrayList();
    GrayFrom0(EXTRAS_RGBS + GRAY_RAMP_RGBS);
  }

  lemma CoolGraySteps12(s: seq<Rgb>)
    requires |s| == 23
    requires s[12].b == 0xff
    requires s[13].b == 0x19
    requires s[14].b == 0x2a
    requires s[15].b == 0x3f
    ensures Kept(s, 12, {0, 11, 15, 18, 22, 27, 30, 33, 38, 56, 57}) ==
      [s[12], s[13], s[14]] + Kept(s, 16, {0, 11, 15, 18, 22, 25, 27, 30, 33, 38, 42, 56, 57, 63})
  {
    var m: set<nat> := {0, 11, 15, 18, 22, 27, 30, 33, 38, 56, 57};
    Take(s, 12, m, 63);
    m := m + {63};
    Take(s, 13, m, 25);
    m := m + {25};
    Take(s, 14, m, 42);
    m := m + {42};
    Skip(s, 15, m, 63);
    assert m == {0, 11, 15, 18, 22, 25, 27, 30, 33, 38, 42, 56, 57, 63};
  }

  lemma CoolGraySteps16(s: seq<Rgb>)
    requires |s| == 23
    requires s[16].b == 0x58
    requires s[17].b == 0x77
    requires s[18].b == 0x96
    requires s[19].b == 0xb0
    ensures Kept(s, 16, {0, 11, 15, 18, 22, 25, 27, 30, 33, 38, 42, 56, 57, 63}) ==
      [s[16], s[17], s[19]] + Kept(s, 20, {0, 11, 15, 18, 22, 24, 25, 27, 30, 33, 38, 42, 48, 55, 56, 57, 63})
  {
    var m: set<nat> := {0, 11, 15, 18, 22, 25, 27, 30, 33, 38, 42, 56, 57, 63};
    Take(s, 16, m, 24);
    m := m + {24};
    Take(s, 17, m, 55);
    m := m + {55};
    Skip(s, 18, m, 22);
    Take(s, 19, m, 48);
    m := m + {48};
    assert m == {0, 11, 15, 18, 22, 24, 25, 27, 30, 33, 38, 42, 48, 55, 56, 57, 63};
  }

  lemma CoolGraySteps20(s: seq<Rgb>)
    requires |s| == 23
    requires s[20].b == 0xcd
    requires s[21].b == 0xe6
    requires s[22].b == 0xf8
    ensures Kept(s, 20, {0, 11, 15, 18, 22, 24, 25, 27, 30, 33, 38, 42, 48, 55, 56, 57, 63}) ==
      [s[20]] + Kept(s, 23, {0, 11, 13, 15, 18, 22, 24, 25, 27, 30, 33, 38, 42, 48, 55, 56, 57, 63})
  {
    var m: set<nat> := {0, 11, 15, 18, 22, 24, 25, 27, 30, 33, 38, 42, 48, 55, 56, 57, 63};
    Take(s, 20, m, 13);
    m := m + {13};
    Skip(s, 21, m, 38);
    Skip(s, 22, m, 56);
    assert m == {0, 11, 13, 15, 18, 22, 24, 25, 27, 30, 33, 38, 42, 48, 55, 56, 57, 63};
  }

  lemma CoolGrayFrom20(s: seq<Rgb>)
    requires |s| == 23
    requires s[20].b == 0xcd
    requires s[21].b == 0xe6
    requires s[22].b == 0xf8
    ensures Kept(s, 20, {0, 11, 15, 18, 22, 24, 25, 27, 30, 33, 38, 42, 48, 55, 56, 57, 63}) == [s[20]]
  {
    CoolGraySteps20(s);
  }

  lemma CoolGrayFrom16(s: seq<Rgb>)
    requires |s| == 23
    requires s[16].b == 0x58
    requires s[17].b == 0x77
    requires s[18].b == 0x96
    requires s[19].b == 0xb0
    requires s[20].b == 0xcd
    requires s[21].b == 0xe6
    requires s[22].b == 0xf8
    ensures Kept(s, 16, {0, 11, 15, 18, 22, 25, 27, 30, 33, 38, 42, 56, 57, 63}) == [s[16], s[17], s[19], s[20]]
  {
    CoolGraySteps16(s);
    CoolGrayFrom20(s);
  }

  lemma CoolGrayFrom12(s: seq<Rgb>)
    requires |s| == 23
    requires s[12].b == 0xff
    requires s[13].b == 0x19
    requires s[14].b == 0x2a
    requires s[15].b == 0x3f
    requires s[16].b == 0x58
    requires s[17].b == 0x77
    requires s[18].b == 0x96
    requires s[19].b == 0xb0
    requires s[20].b == 0xcd
    requires s[21].b == 0xe6
    requires s[22].b == 0xf8
    ensures Kept(s, 12, {0, 11, 15, 18, 22, 27, 30, 33, 38, 56, 57}) == [s[12], s[13], s[14], s[16], s[17], s[19], s[20]]
  {
    CoolGraySteps12(s);
    CoolGrayFrom16(s);
  }

  lemma CoolGrayFrom8(s: seq<Rgb>)
    requires |s| == 23
    requires s[8].b == 0x39
    requires s[9].b == 0x52
    requires s[10].b == 0xe6
    requires s[11].b == 0xf8
    requires s[12].b == 0xff
    requires s[13].b == 0x19
    requires s[14].b == 0x2a
    requires s[15].b == 0x3f
    requires s[16].b == 0x58
    requires s[17].b == 0x77
    requires s[18].b == 0x96
    requires s[19].b == 0xb0
    requires s[20].b == 0xcd
    requires s[21].b == 0xe6
    requires s[22].b == 0xf8
    ensures Kept(s, 8, {0, 11, 15, 22, 27, 30, 33, 38}) == [s[8], s[9], s[11], s[12], s[13], s[14], s[16], s[17], s[19], s[20]]
  {
    ExtrasSteps8(s);
    CoolGrayFrom12(s);
  }

  lemma CoolGrayFrom4(s: seq<Rgb>)
    requires |s| == 23
    requires s[4].b == 0x1b
    requires s[5].b == 0x1e
    requires s[6].b == 0x21
    requires s[7].b == 0x26
    requires s[8].b == 0x39
    requires s[9].b == 0x52
    requires s[10].b == 0xe6
    requires s[11].b == 0xf8
    requires s[12].b == 0xff
    requires s[13].b == 0x19
    requires s[14].b == 0x2a
    requires s[15].b == 0x3f
    requires s[16].b == 0x58
    requires s[17].b == 0x77
    requires s[18].b == 0x96
    requires s[19].b == 0xb0
    requires s[20].b == 0xcd
    requires s[21].b == 0xe6
    requires s[22].b == 0xf8
    ensures Kept(s, 4, {0, 11, 15, 22}) == [s[4], s[5], s[6], s[7], s[8], s[9], s[11], s[12], s[13], s[14], s[16], s[17], s[19], s[20]]
  {
    ExtrasSteps4(s);
    CoolGrayFrom8(s);
  }

  lemma CoolGrayFrom0(s: seq<Rgb>)
    requires |s| == 23
    requires s[0].b == 0x00
    requires s[1].b == 0x0b
    requires s[2].b == 0x0f
    requires s[3].b == 0x16
    requires s[4].b == 0x1b
    requires s[5].b == 0x1e
    requires s[6].b == 0x21
    requires s[7].b == 0x26
    requires s[8].b == 0x39
    requires s[9].b == 0x52
    requires s[10].b == 0xe6
    requires s[11].b == 0xf8
    requires s[12].b == 0xff
    requires s[13].b == 0x19
    requires s[14].b == 0x2a
    requires s[15].b == 0x3f
    requires s[16].b == 0x58
    requires s[17].b == 0x77
    requires s[18].b == 0x96
    requires s[19].b == 0xb0
    requires s[20].b == 0xcd
    requires s[21].b == 0xe6
    requires s[22].b == 0xf8
    ensures Kept(s, 0, {}) == [s[0], s[1], s[2], s[3], s[4], s[5], s[6], s[7], s[8], s[9], s[11], s[12], s[13], s[14], s[16], s[17], s[19], s[20]]
  {
    ExtrasSteps0(s);
    CoolGrayFrom4(s);
  }

  /** The extras followed by COOL_GRAY_RAMP, as one list. */
  lemma CoolGrayList()
    ensures EXTRAS_RGBS + COOL_GRAY_RAMP_RGBS == [
      Rgb(0x00, 0x00, 0x00),
      Rgb(0x0b, 0x0b, 0x0b),
      Rgb(0x0f, 0x0f, 0x0f),
      Rgb(0x16, 0x16, 0x16),
      Rgb(0x1b, 0x1b, 0x1b),
      Rgb(0x1e, 0x1e, 0x1e),
      Rgb(0x21, 0x21, 0x21),
      Rgb(0x26, 0x26, 0x26),
      Rgb(0x39, 0x39, 0x39),
      Rgb(0x52, 0x52, 0x52),
      Rgb(0xdd, 0xe1, 0xe6),
      Rgb(0xf2, 0xf4, 0xf8),
      Rgb(0xff, 0xff, 0xff),
      Rgb(0x12, 0x16, 0x19),
      Rgb(0x21, 0x27, 0x2a),
      Rgb(0x34, 0x3a, 0x3f),
      Rgb(0x4d, 0x53, 0x58),
      Rgb(0x69, 0x70, 0x77),
      Rgb(0x87, 0x8d, 0x96),
      Rgb(0xa2, 0xa9, 0xb0),
      Rgb(0xc1, 0xc7, 0xcd),
      Rgb(0xdd, 0xe1, 0xe6),
      Rgb(0xf2, 0xf4, 0xf8)
    ]
  {
  }

  /** What the loop keeps of the extras and COOL_GRAY_RAMP. */
  lemma DedupCoolGray()
    ensures Dedup(EXTRAS_RGBS + COOL_GRAY_RAMP_RGBS) == [
      Rgb(0x00, 0x00, 0x00),
      Rgb(0x0b, 0x0b, 0x0b),
      Rgb(0x0f, 0x0f, 0x0f),
      Rgb(0x16, 0x16, 0x16),
      Rgb(0x1b, 0x1b, 0x1b),
      Rgb(0x1e, 0x1e, 0x1e),
      Rgb(0x21, 0x21, 0x21),
      Rgb(0x26, 0x26, 0x26),
      Rgb(0x39, 0x39, 0x39),
      Rgb(0x52, 0x52, 0x52),
      Rgb(0xf2, 0xf4, 0xf8),
      Rgb(0xff, 0xff, 0xff),
      Rgb(0x12, 0x16, 0x19),
      Rgb(0x21, 0x27, 0x2a),
      Rgb(0x4d, 0x53, 0x58),
      Rgb(0x69, 0x70, 0x77),
      Rgb(0xa2, 0xa9, 0xb0),
      Rgb(0xc1, 0xc7, 0xcd)
    ]
  {
    CoolGrayList();
    CoolGrayFrom0(EXTRAS_RGBS + COOL_GRAY_RAMP_RGBS);
  }

  lemma WarmGraySteps12(s: seq<Rgb>)
    requires |s| == 23
    requires s[12].b == 0xff
    requires s[13].b == 0x14
    requires s[14].b == 0x25
    requires s[15].b == 0x38
    ensures Kept(s, 12, {0, 11, 15, 18, 22, 27, 30, 33, 38, 56, 57}) ==
      [s[12], s[13], s[14]] + Kept(s, 16, {0, 11, 15, 18, 20, 22, 27, 30, 33, 37, 38, 56, 57, 63})
  {
    var m: set<nat> := {0, 11, 15, 18, 22, 27, 30, 33, 38, 56, 57};
    Take(s, 12, m, 63);
    m := m + {63};
    Take(s, 13, m, 20);
    m := m + {20};
    Take(s, 14, m, 37);
    m := m + {37};
    Skip(s, 15, m, 56);
    assert m == {0, 11, 15, 18, 20, 22, 27, 30, 33, 37, 38, 56, 57, 63};
  }

  lemma WarmGraySteps16(s: seq<Rgb>)
    requires |s| == 23
    requires s[16].b == 0x51
    requires s[17].b == 0x6e
    requires s[18].b == 0x8b
    requires s[19].b == 0xa8
    ensures Kept(s, 16, {0, 11, 15, 18, 20, 22, 27, 30, 33, 37, 38, 56, 57, 63}) ==
      [s[16], s[17], s[19]] + Kept(s, 20, {0, 11, 15, 17, 18, 20, 22, 27, 30, 33, 37, 38, 40, 46, 56, 57, 63})
  {
    var m: set<nat> := {0, 11, 15, 18, 20, 22, 27, 30, 33, 37, 38, 56, 57, 63};
    Take(s, 16, m, 17);
    m := m + {17};
    Take(s, 17, m, 46);
    m := m + {46};
    Skip(s, 18, m, 11);
    Take(s, 19, m, 40);
    m := m + {40};
    assert m == {0, 11, 15, 17, 18, 20, 22, 27, 30, 33, 37, 38, 40, 46, 56, 57, 63};
  }

  lemma WarmGraySteps20(s: seq<Rgb>)
    requires |s| == 23
    requires s[20].b == 0xc4
    requires s[21].b == 0xdf
    requires s[22].b == 0xf2
    ensures Kept(s, 20, {0, 11, 15, 17, 18, 20, 22, 27, 30, 33, 37, 38, 40, 46, 56, 57, 63}) ==
      [s[20], s[21], s[22]] + Kept(s, 23, {0, 4, 11, 15, 17, 18, 20, 22, 27, 30, 31, 33, 37, 38, 40, 46, 50, 56, 57, 63})
  {
    var m: set<nat> := {0, 11, 15, 17, 18, 20, 22, 27, 30, 33, 37, 38, 40, 46, 56, 57, 63};
    Take(s, 20, m, 4);
    m := m + {4};
    Take(s, 21, m, 31);
    m := m + {31};
    Take(s, 22, m, 50);
    m := m + {50};
    assert m == {0, 4, 11, 15, 17, 18, 20, 22, 27, 30, 31, 33, 37, 38, 40, 46, 50, 56, 57, 63};
  }

  lemma WarmGrayFrom20(s: seq<Rgb>)
    requires |s| == 23
    requires s[20].b == 0xc4
    requires s[21].b == 0xdf
    requires s[22].b == 0xf2
    ensures Kept(s, 20, {0, 11, 15, 17, 18, 20, 22, 27, 30, 33, 37, 38, 40, 46, 56, 57, 63}) == [s[20], s[21], s[22]]
  {
    WarmGraySteps20(s);
  }

  lemma WarmGrayFrom16(s: seq<Rgb>)
    requires |s| == 23
    requires s[16].b == 0x51
    requires s[17].b == 0x6e
    requires s[18].b == 0x8b
    requires s[19].b == 0xa8
    requires s[20].b == 0xc4
    requires s[21].b == 0xdf
    requires s[22].b == 0xf2
    ensures Kept(s, 16, {0, 11, 15, 18, 20, 22, 27, 30, 33, 37, 38, 56, 57, 63}) == [s[16], s[17], s[19], s[20], s[21], s[22]]
  {
    WarmGraySteps16(s);
    WarmGrayFrom20(s);
  }

  lemma WarmGrayFrom12(s: seq<Rgb>)
    requires |s| == 23
    requires s[12].b == 0xff
    requires s[13].b == 0x14
    requires s[14].b == 0x25
    requires s[15].b == 0x38
    requires s[16].b == 0x51
    requires s[17].b == 0x6e
    requires s[18].b == 0x8b
    requires s[19].b == 0xa8
    requires s[20].b == 0xc4
    requires s[21].b == 0xdf
    requires s[22].b == 0xf2
    ensures Kept(s, 12, {0, 11, 15, 18, 22, 27, 30, 33, 38, 56, 57}) == [s[12], s[13], s[14], s[16], s[17], s[19], s[20], s[21], s[22]]
  {
    WarmGraySteps12(s);
    WarmGrayFrom16(s);
  }

  lemma WarmGrayFrom8(s: seq<Rgb>)
    requires |s| == 23
    requires s[8].b == 0x39
    requires s[9].b == 0x52
    requires s[10].b == 0xe6
    requires s[11].b == 0xf8
    requires s[12].b == 0xff
    requires s[13].b == 0x14
    requires s[14].b == 0x25
    requires s[15].b == 0x38
    requires s[16].b == 0x51
    requires s[17].b == 0x6e
    requires s[18].b == 0x8b
    requires s[19].b == 0xa8
    requires s[20].b == 0xc4
    requires s[21].b == 0xdf
    requires s[22].b == 0xf2
    ensures Kept(s, 8, {0, 11, 15, 22, 27, 30, 33, 38}) == [s[8], s[9], s[11], s[12], s[13], s[14], s[16], s[17], s[19], s[20], s[21], s[22]]
  {
    ExtrasSteps8(s);
    WarmGrayFrom12(s);
  }

  lemma WarmGrayFrom4(s: seq<Rgb>)
    requires |s| == 23
    requires s[4].b == 0x1b
    requires s[5].b == 0x1e
    requires s[6].b == 0x21
    requires s[7].b == 0x26
    requires s[8].b == 0x39
    requires s[9].b == 0x52
    requires s[10].b == 0xe6
    requires s[11].b == 0xf8
    requires s[12].b == 0xff
    requires s[13].b == 0x14
    requires s[14].b == 0x25
    requires s[15].b == 0x38
    requires s[16].b == 0x51
    requires s[17].b == 0x6e
    requires s[18].b == 0x8b
    requires s[19].b == 0xa8
    requires s[20].b == 0xc4
    requires s[21].b == 0xdf
    requires s[22].b == 0xf2
    ensures Kept(s, 4, {0, 11, 15, 22}) == [s[4], s[5], s[6], s[7], s[8], s[9], s[11], s[12], s[13], s[14], s[16], s[17], s[19], s[20], s[21], s[22]]
  {
    ExtrasSteps4(s);
    WarmGrayFrom8(s);
  }

  lemma WarmGrayFrom0(s: seq<Rgb>)
    requires |s| == 23
    requires s[0].b == 0x00
    requires s[1].b == 0x0b
    requires s[2].b == 0x0f
    requires s[3].b == 0x16
    requires s[4].b == 0x1b
    requires s[5].b == 0x1e
    requires s[6].b == 0x21
    requires s[7].b == 0x26
    requires s[8].b == 0x39
    requires s[9].b == 0x52
    requires s[10].b == 0xe6
    requires s[11].b == 0xf8
    requires s[12].b == 0xff
    requires s[13].b == 0x14
    requires s[14].b == 0x25
    requires s[15].b == 0x38
    requires s[16].b == 0x51
    requires s[17].b == 0x6e
    requires s[18].b == 0x8b
    requires s[19].b == 0xa8
    requires s[20].b == 0xc4
    requires s[21].b == 0xdf
    requires s[22].b == 0xf2
    ensures Kept(s, 0, {}) == [s[0], s[1], s[2], s[3], s[4], s[5], s[6], s[7], s[8], s[9], s[11], s[12], s[13], s[14], s[16], s[17], s[19], s[20], s[21], s[22]]
  {
    ExtrasSteps0(s);
    WarmGrayFrom4(s);
  }

  /** The extras followed by WARM_GRAY_RAMP, as one list. */
  lemma WarmGrayList()
    ensures EXTRAS_RGBS + WARM_GRAY_RAMP_RGBS == [
      Rgb(0x00, 0x00, 0x00),
      Rgb(0x0b, 0x0b, 0x0b),
      Rgb(0x0f, 0x0f, 0x0f),
      Rgb(0x16, 0x16, 0x16),
      Rgb(0x1b, 0x1b, 0x1b),
      Rgb(0x1e, 0x1e, 0x1e),
      Rgb(0x21, 0x21, 0x21),
      Rgb(0x26, 0x26, 0x26),
      Rgb(0x39, 0x39, 0x39),
      Rgb(0x52, 0x52, 0x52),
      Rgb(0xdd, 0xe1, 0xe6),
      Rgb(0xf2, 0xf4, 0xf8),
      Rgb(0xff, 0xff, 0xff),
      Rgb(0x17, 0x14, 0x14),
      Rgb(0x27, 0x25, 0x25),
      Rgb(0x3c, 0x38, 0x38),
      Rgb(0x56, 0x51, 0x51),
      Rgb(0x72, 0x6e, 0x6e),
      Rgb(0x8f, 0x8b, 0x8b),
      Rgb(0xad, 0xa8, 0xa8),
      Rgb(0xca, 0xc5, 0xc4),
      Rgb(0xe5, 0xe0, 0xdf),
      Rgb(0xf7, 0xf3, 0xf2)
    ]
  {
  }

  /** What the loop keeps of the extras and WARM_GRAY_RAMP. */
  lemma DedupWarmGray()
    ensures Dedup(EXTRAS_RGBS + WARM_GRAY_RAMP_RGBS) == [
      Rgb(0x00, 0x00, 0x00),
      Rgb(0x0b, 0x0b, 0x0b),
      Rgb(0x0f, 0x0f, 0x0f),
      Rgb(0x16, 0x16, 0x16),
      Rgb(0x1b, 0x1b, 0x1b),
      Rgb(0x1e, 0x1e, 0x1e),
      Rgb(0x21, 0x21, 0x21),
      Rgb(0x26, 0x26, 0x26),
      Rgb(0x39, 0x39, 0x39),
      Rgb(0x52, 0x52, 0x52),
      Rgb(0xf2, 0xf4, 0xf8),
      Rgb(0xff, 0xff, 0xff),
      Rgb(0x17, 0x14, 0x14),
      Rgb(0x27, 0x25, 0x25),
      Rgb(0x56, 0x51, 0x51),
      Rgb(0x72, 0x6e, 0x6e),
      Rgb(0xad, 0xa8, 0xa8),
      Rgb(0xca, 0xc5, 0xc4),
      Rgb(0xe5, 0xe0, 0xdf),
      Rgb(0xf7, 0xf3, 0xf2)
    ]
  {
    WarmGrayList();
    WarmGrayFrom0(EXTRAS_RGBS + WARM_GRAY_RAMP_RGBS);
  }

  /**
   * The default ramp has 18 colours: every shade of the extras and of
   * GRAY_RAMP except #dde1e6, whose bits an earlier, different shade set.
   */
  lemma GrayRampColours(lum: Rgb -> real)
    ensures AllParse(MONO_RAMP_EXTRAS + GRAY_RAMP)
    ensures |RampOf(GRAY_RAMP, lum).rgbs| == 18
    ensures forall c :: c in RampOf(GRAY_RAMP, lum).rgbs <==>
      c in Rgbs(MONO_RAMP_EXTRAS + GRAY_RAMP) && c !in [Rgb(0xdd, 0xe1, 0xe6)]
  {
    GrayChain();
    DedupGray();
    GrayKeptMembers();
    RampProperties(GRAY_RAMP, lum);
  }

  /** A colour is kept exactly when it is in the list and is not one of the shades dropped. */
  lemma GrayKeptMembers()
    ensures forall c :: c in Dedup(EXTRAS_RGBS + GRAY_RAMP_RGBS) <==>
      c in EXTRAS_RGBS + GRAY_RAMP_RGBS && c !in [Rgb(0xdd, 0xe1, 0xe6)]
  {
    DedupGray();
    GrayList();
  }

  /**
   * The cool ramp has 18 colours: every shade of the extras and of
   * COOL_GRAY_RAMP except #dde1e6, #343a3f, #878d96, whose bits an earlier, different shade set.
   */
  lemma CoolGrayRampColours(lum: Rgb -> real)
    ensures AllParse(MONO_RAMP_EXTRAS + COOL_GRAY_RAMP)
    ensures |RampOf(COOL_GRAY_RAMP, lum).rgbs| == 18
    ensures forall c :: c in RampOf(COOL_GRAY_RAMP, lum).rgbs <==>
      c in Rgbs(MONO_RAMP_EXTRAS + COOL_GRAY_RAMP) && c !in [Rgb(0xdd, 0xe1, 0xe6), Rgb(0x34, 0x3a, 0x3f), Rgb(0x87, 0x8d, 0x96)]
  {
    CoolGrayChain();
    DedupCoolGray();
    CoolGrayKeptMembers();
    RampProperties(COOL_GRAY_RAMP, lum);
  }

  /** A colour is kept exactly when it is in the list and is not one of the shades dropped. */
  lemma CoolGrayKeptMembers()
    ensures forall c :: c in Dedup(EXTRAS_RGBS + COOL_GRAY_RAMP_RGBS) <==>
      c in EXTRAS_RGBS + COOL_GRAY_RAMP_RGBS && c !in [Rgb(0xdd, 0xe1, 0xe6), Rgb(0x34, 0x3a, 0x3f), Rgb(0x87, 0x8d, 0x96)]
  {
    DedupCoolGray();
    CoolGrayList();
  }

  /**
   * The warm ramp has 20 colours: every shade of the extras and of
   * WARM_GRAY_RAMP except #dde1e6, #3c3838, #8f8b8b, whose bits an earlier, different shade set.
   */
  lemma WarmGrayRampColours(lum: Rgb -> real)
    ensures AllParse(MONO_RAMP_EXTRAS + WARM_GRAY_RAMP)
    ensures |RampOf(WARM_GRAY_RAMP, lum).rgbs| == 20
    ensures forall c :: c in RampOf(WARM_GRAY_RAMP, lum).rgbs <==>
      c in Rgbs(MONO_RAMP_EXTRAS + WARM_GRAY_RAMP) && c !in [Rgb(0xdd, 0xe1, 0xe6), Rgb(0x3c, 0x38, 0x38), Rgb(0x8f, 0x8b, 0x8b)]
  {
    WarmGrayChain();
    DedupWarmGray();
    WarmGrayKeptMembers();
    RampProperties(WARM_GRAY_RAMP, lum);
  }

  /** A colour is kept exactly when it is in the list and is not one of the shades dropped. */
  lemma WarmGrayKeptMembers()
    ensures forall c :: c in Dedup(EXTRAS_RGBS + WARM_GRAY_RAMP_RGBS) <==>
      c in EXTRAS_RGBS + WARM_GRAY_RAMP_RGBS && c !in [Rgb(0xdd, 0xe1, 0xe6), Rgb(0x3c, 0x38, 0x38), Rgb(0x8f, 0x8b, 0x8b)]
  {
    DedupWarmGray();
    WarmGrayList();
  }

  /** The three palette families. */
  datatype Family = Gray | CoolGray | WarmGray

  /**
   * The family a `--mono-family` value names: exact lowercase aliases, every
   * other string meaning the default gray. The theme name uses the same sets.
   */
  function FamilyOf(name: string): (f: Family)
    ensures f == CoolGray <==> name in {"coolgray", "cool-gray", "cool"}
    ensures f == WarmGray <==> name in {"warmgray", "warm-gray", "warm"}
  {
    if name == "coolgray" || name == "cool-gray" || name == "cool" then CoolGray
    else if name == "warmgray" || name == "warm-gray" || name == "warm" then WarmGray
    else Gray
  }

  /** The aliases are matched exactly: another case or spelling falls back to gray. */
  lemma FamilyAliasesExact()
    ensures FamilyOf("Cool") == Gray && FamilyOf("COOLGRAY") == Gray && FamilyOf("cool_gray") == Gray
    ensures FamilyOf("Warm") == Gray && FamilyOf("warm gray") == Gray && FamilyOf("gray") == Gray
  {
    assert "Cool" != "cool" && "COOLGRAY" != "coolgray" && "Warm" != "warm";
  }

  /** The shades of a family. */
  function BaseOf(f: Family): seq<string>
  {
    match f
    case Gray => GRAY_RAMP
    case CoolGray => COOL_GRAY_RAMP
    case WarmGray => WARM_GRAY_RAMP
  }

  lemma BaseParses(f: Family)
    ensures AllParse(MONO_RAMP_EXTRAS + BaseOf(f))
  {
    match f
    case Gray => GrayChain();
    case CoolGray => CoolGrayChain();
    case WarmGray => WarmGrayChain();
  }

  /** The three ramps (`MonochromeRamps`), built once. */
  datatype MonochromeRamps = MonochromeRamps(default: MonoRamp, cool: MonoRamp, warm: MonoRamp)

  /** `build_monochrome_ramps`. */
  function BuildMonochromeRamps(lum: Rgb -> real): MonochromeRamps
  {
    BaseParses(Gray);
    BaseParses(CoolGray);
    BaseParses(WarmGray);
    MonochromeRamps(RampOf(GRAY_RAMP, lum), RampOf(COOL_GRAY_RAMP, lum), RampOf(WARM_GRAY_RAMP, lum))
  }

  /** `select_monochrome_ramp`: the ramp of the family the name selects. */
  function SelectMonochromeRamp(family: string, lum: Rgb -> real): (ramp: MonoRamp)
    ensures AllParse(MONO_RAMP_EXTRAS + BaseOf(FamilyOf(family)))
    ensures ramp == RampOf(BaseOf(FamilyOf(family)), lum)
  {
    BaseParses(FamilyOf(family));
    var ramps := BuildMonochromeRamps(lum);
    if family == "coolgray" || family == "cool-gray" || family == "cool" then ramps.cool
    else if family == "warmgray" || family == "warm-gray" || family == "warm" then ramps.warm
    else ramps.default
  }

  /** Every ramp is non-empty and pairs each colour with its luminance, in ascending order. */
  lemma SelectedRampWellFormed(family: string, lum: Rgb -> real)
    ensures var ramp := SelectMonochromeRamp(family, lum);
      && 0 < |ramp.luminances| == |ramp.rgbs| <= 23
      && (forall i, j :: 0 <= i < j < |ramp.luminances| ==> ramp.luminances[i] <= ramp.luminances[j])
      && (forall k :: 0 <= k < |ramp.rgbs| ==> ramp.luminances[k] == lum(ramp.rgbs[k]))
  {
    var f := FamilyOf(family);
    BaseParses(f);
    RampProperties(BaseOf(f), lum);
    match f
    case Gray => GrayRampColours(lum);
    case CoolGray => CoolGrayRampColours(lum);
    case WarmGray => WarmGrayRampColours(lum);
  }

  /** `find_nearest_index` (defined outside the files modelled here) gives an index of a non-empty list. */
  ghost predicate NearestInRange(nearest: (seq<real>, real) -> nat)
  {
    forall ls: seq<real>, t: real :: |ls| > 0 ==> nearest(ls, t) < |ls|
  }

  /** `MonoRamp::nearest_rgb`: the colour at the index the search returns. */
  function NearestRgb(ramp: MonoRamp, target: real, nearest: (seq<real>, real) -> nat): (c: Rgb)
    requires NearestInRange(nearest)
    requires 0 < |ramp.luminances| == |ramp.rgbs|
    ensures c in ramp.rgbs
  {
    ramp.rgbs[nearest(ramp.luminances, target)]
  }

  /** The shade picked from a family's ramp is one of the extras or of the family's shades. */
  lemma NearestIsAShade(family: string, lum: Rgb -> real, target: real, nearest: (seq<real>, real) -> nat)
    requires NearestInRange(nearest)
    ensures var ramp := SelectMonochromeRamp(family, lum);
      && 0 < |ramp.luminances| == |ramp.rgbs|
      && AllParse(MONO_RAMP_EXTRAS + BaseOf(FamilyOf(family)))
      && NearestRgb(ramp, target, nearest) in Rgbs(MONO_RAMP_EXTRAS + BaseOf(FamilyOf(family)))
  {
    var f := FamilyOf(family);
    SelectedRampWellFormed(family, lum);
    BaseParses(f);
    RampProperties(BaseOf(f), lum);
    var s := Rgbs(MONO_RAMP_EXTRAS + BaseOf(f));
    DedupDistinct(s);
    var c := NearestRgb(SelectMonochromeRamp(family, lum), target, nearest);
    assert c in Dedup(s);
  }

  /** The accents of `MONO_ACCENT_CANDIDATES` as colours. */
  const ACCENT_RGBS: seq<Rgb> := [
    Rgb(0x08, 0xbd, 0xba),
    Rgb(0x33, 0xb1, 0xff),
    Rgb(0x3d, 0xdb, 0xd9),
    Rgb(0x42, 0xbe, 0x65),
    Rgb(0x78, 0xa9, 0xff),
    Rgb(0x82, 0xcf, 0xff),
    Rgb(0xa6, 0xc8, 0xff),
    Rgb(0xbe, 0x95, 0xff),
    Rgb(0xee, 0x53, 0x96),
    Rgb(0xff, 0x7e, 0xb6)
  ]

  /** `is_monochrome_candidate`: the packed colour is on the allow-list. */
  predicate IsMonochromeCandidate(rgb: Rgb, isPrint: bool)
  {
    PackRgb(rgb) in MONO_ACCENT_CANDIDATES || (isPrint && PackRgb(rgb) == MONO_PRINT_EXTRA_ACCENTS)
  }

  /**
   * The test is exact membership: a colour is a candidate iff it is one of
   * the ten accents, or the print variant's extra accent when printing.
   */
  lemma CandidateIsExact(rgb: Rgb, isPrint: bool)
    ensures IsMonochromeCandidate(rgb, isPrint) <==>
      rgb in ACCENT_RGBS || (isPrint && rgb == Rgb(0x0f, 0x62, 0xfe))
  {
    assert forall k :: 0 <= k < 10 ==> PackRgb(ACCENT_RGBS[k]) == MONO_ACCENT_CANDIDATES[k];
    assert PackRgb(Rgb(0x0f, 0x62, 0xfe)) == MONO_PRINT_EXTRA_ACCENTS;
    if PackRgb(rgb) in MONO_ACCENT_CANDIDATES {
      var k :| 0 <= k < 10 && MONO_ACCENT_CANDIDATES[k] == PackRgb(rgb);
      PackRgbInjective(rgb, ACCENT_RGBS[k]);
    }
    if isPrint && PackRgb(rgb) == MONO_PRINT_EXTRA_ACCENTS {
      PackRgbInjective(rgb, Rgb(0x0f, 0x62, 0xfe));
    }
  }
}
