/**
 * The compatibility pass of the theme compiler: four colours written over
 * four key lists of the `colors` table, in order, so that a key on two lists
 * keeps the later colour.
 */
module ThemeCompat {
  import opened Wrappers
  import opened HexColor
  import opened Toml
  import Ramp

  const COMPAT_BG_KEYS: seq<string> := [
    "titleBar.activeBackground",
    "editorGroupHeader.tabsBackground",
    "tab.inactiveBackground",
    "activityBar.background",
    "sideBar.background",
    "panel.background",
    "statusBar.background",
    "editorWidget.background"
  ]

  const COMPAT_BG_KEYS_2: seq<string> := ["editorGutter.background"]

  const COMPAT_CONTRAST_KEYS: seq<string> := [
    "titleBar.border",
    "tab.border",
    "activityBar.border",
    "statusBar.border",
    "titleBar.activeBackground",
    "list.hoverBackground",
    "dropdown.background"
  ]

  const COMPAT_CONTRAST_KEYS_2: seq<string> := [
    "tab.border",
    "sideBar.border",
    "panel.border",
    "editorWidget.resizeBorder",
    "editorGroupHeader.border"
  ]

  /** The table after `insert_value(table, keys, value)`: each key in turn set to `v`. */
  function InsertAll(t: Entries, keys: seq<string>, v: Value): Entries
    decreases |keys|
  {
    if keys == [] then t else InsertAll(Insert(t, keys[0], v), keys[1..], v)
  }

  /** `insert_value`: the loop over the keys. */
  method InsertValue(t: Entries, keys: seq<string>, v: Value) returns (r: Entries)
    ensures r == InsertAll(t, keys, v)
  {
    r := t;
    for i := 0 to |keys|
      invariant InsertAll(r, keys[i..], v) == InsertAll(t, keys, v)
    {
      assert keys[i..][0] == keys[i] && keys[i..][1..] == keys[i + 1..];
      r := Insert(r, keys[i], v);
    }
    assert keys[|keys|..] == [];
  }

  /** After `insert_value` every listed key has the value and every other key its old one. */
  lemma {:induction false} InsertAllGet(t: Entries, keys: seq<string>, v: Value, k: string)
    ensures Get(InsertAll(t, keys, v), k) == if k in keys then Some(v) else Get(t, k)
    decreases |keys|
  {
    if keys != [] {
      InsertAllGet(Insert(t, keys[0], v), keys[1..], v, k);
      InsertGet(t, keys[0], v, k);
      if k in keys[1..] {
      } else {
        assert k in keys <==> k == keys[0];
      }
    }
  }

  /** The four colours of the pass, for the standard or the OLED palette. */
  datatype CompatColours = CompatColours(c1: string, c2: string, c3: string, c4: string)

  /**
   * The colours `main` computes: c1 the midpoint of the two darkest
   * backgrounds, c2 and c3 fixed, c4 the midpoint of a base and c3.
   */
  function Colours(oled: bool): CompatColours
  {
    DarkGrays();
    LightGrays();
    var from := if oled then "#000000" else "#161616";
    var to := if oled then "#161616" else "#262626";
    var c1 := MidpointHex(from, to);
    var c2 := if oled then "#030303" else "#131313";
    var c3 := if oled then "#262626" else "#393939";
    var base := if oled then "#161616" else "#262626";
    CompatColours(c1, c2, c3, MidpointHex(base, c3))
  }

  /** The two darkest grays the pass starts from. */
  lemma DarkGrays()
    ensures ParseHexRgbaU8("#000000") == Some((Rgb(0x00, 0x00, 0x00), None))
    ensures ParseHexRgbaU8("#161616") == Some((Rgb(0x16, 0x16, 0x16), None))
  {
    Ramp.Decodes("#000000", Rgb(0x00, 0x00, 0x00));
    Ramp.Decodes("#161616", Rgb(0x16, 0x16, 0x16));
  }

  /** The two lighter grays the pass starts from. */
  lemma LightGrays()
    ensures ParseHexRgbaU8("#262626") == Some((Rgb(0x26, 0x26, 0x26), None))
    ensures ParseHexRgbaU8("#393939") == Some((Rgb(0x39, 0x39, 0x39), None))
  {
    Ramp.Decodes("#262626", Rgb(0x26, 0x26, 0x26));
    Ramp.Decodes("#393939", Rgb(0x39, 0x39, 0x39));
  }

  /** The midpoint of two grays is the gray whose two digits, written three times, are given. */
  lemma GrayMidpoint(a: string, b: string, hex: string, x: u8, y: u8)
    requires ParseHexRgbaU8(a) == Some((Rgb(x, x, x), None))
    requires ParseHexRgbaU8(b) == Some((Rgb(y, y, y), None))
    requires |hex| == 7 && hex[0] == '#'
    requires hex[1] == HEX_DIGITS[(x + y) / 2 / 16] && hex[2] == HEX_DIGITS[(x + y) / 2 % 16]
    requires hex[3] == hex[5] == hex[1] && hex[4] == hex[6] == hex[2]
    ensures MidpointHex(a, b) == hex
  {
    var m := AverageChannel(x, y);
    assert StrictRgb(a) == Rgb(x, x, x) && StrictRgb(b) == Rgb(y, y, y);
    assert AverageRgb(StrictRgb(a), StrictRgb(b)) == Rgb(m, m, m);
    FormatsAs(hex, Rgb(m, m, m));
  }

  lemma DarkestMidpoint()
    ensures MidpointHex("#000000", "#161616") == "#0b0b0b"
  {
    DarkGrays();
    GrayMidpoint("#000000", "#161616", "#0b0b0b", 0x00, 0x16);
  }

  lemma DarkMidpoint()
    ensures MidpointHex("#161616", "#262626") == "#1e1e1e"
  {
    DarkGrays();
    LightGrays();
    GrayMidpoint("#161616", "#262626", "#1e1e1e", 0x16, 0x26);
  }

  lemma LightMidpoint()
    ensures MidpointHex("#262626", "#393939") == "#2f2f2f"
  {
    LightGrays();
    GrayMidpoint("#262626", "#393939", "#2f2f2f", 0x26, 0x39);
  }

  /**
   * The values the code computes (the comments beside it give other numbers
   * for c4): standard `#1e1e1e`, `#131313`, `#393939`, `#2f2f2f`; OLED
   * `#0b0b0b`, `#030303`, `#262626`, `#1e1e1e`.
   */
  lemma ColoursValues()
    ensures Colours(false) == CompatColours("#1e1e1e", "#131313", "#393939", "#2f2f2f")
    ensures Colours(true) == CompatColours("#0b0b0b", "#030303", "#262626", "#1e1e1e")
  {
    StandardColours();
    OledColours();
  }

  lemma StandardColours()
    ensures Colours(false) == CompatColours("#1e1e1e", "#131313", "#393939", "#2f2f2f")
  {
    DarkMidpoint();
    LightMidpoint();
  }

  lemma OledColours()
    ensures Colours(true) == CompatColours("#0b0b0b", "#030303", "#262626", "#1e1e1e")
  {
    DarkestMidpoint();
    DarkMidpoint();
  }

  /** The `colors` table after the four writes, in the order of `main`. */
  function CompatTable(colors: Entries, oled: bool): Entries
  {
    var c := Colours(oled);
    var t1 := InsertAll(colors, COMPAT_BG_KEYS, Str(c.c1));
    var t2 := InsertAll(t1, COMPAT_BG_KEYS_2, Str(c.c2));
    var t3 := InsertAll(t2, COMPAT_CONTRAST_KEYS, Str(c.c3));
    InsertAll(t3, COMPAT_CONTRAST_KEYS_2, Str(c.c4))
  }

  /** Last write wins: a key gets the colour of the last list that names it. */
  lemma CompatGet(colors: Entries, oled: bool, k: string)
    ensures var c := Colours(oled);
      Get(CompatTable(colors, oled), k) ==
        if k in COMPAT_CONTRAST_KEYS_2 then Some(Str(c.c4))
        else if k in COMPAT_CONTRAST_KEYS then Some(Str(c.c3))
        else if k in COMPAT_BG_KEYS_2 then Some(Str(c.c2))
        else if k in COMPAT_BG_KEYS then Some(Str(c.c1))
        else Get(colors, k)
  {
    var c := Colours(oled);
    var t1 := InsertAll(colors, COMPAT_BG_KEYS, Str(c.c1));
    var t2 := InsertAll(t1, COMPAT_BG_KEYS_2, Str(c.c2));
    var t3 := InsertAll(t2, COMPAT_CONTRAST_KEYS, Str(c.c3));
    InsertAllGet(colors, COMPAT_BG_KEYS, Str(c.c1), k);
    InsertAllGet(t1, COMPAT_BG_KEYS_2, Str(c.c2), k);
    InsertAllGet(t2, COMPAT_CONTRAST_KEYS, Str(c.c3), k);
    InsertAllGet(t3, COMPAT_CONTRAST_KEYS_2, Str(c.c4), k);
  }

  /**
   * The two keys that sit on two lists: `titleBar.activeBackground` ends
   * with c3, not c1, and `tab.border` with c4, not c3.
   */
  lemma OverlappingKeys(colors: Entries, oled: bool)
    ensures Get(CompatTable(colors, oled), "titleBar.activeBackground") == Some(Str(Colours(oled).c3))
    ensures Get(CompatTable(colors, oled), "tab.border") == Some(Str(Colours(oled).c4))
  {
    CompatGet(colors, oled, "titleBar.activeBackground");
    CompatGet(colors, oled, "tab.border");
    OverlapMembership();
  }

  /** Where the two overlapping keys sit on the lists. */
  lemma OverlapMembership()
    ensures "titleBar.activeBackground" !in COMPAT_CONTRAST_KEYS_2
    ensures "titleBar.activeBackground" in COMPAT_CONTRAST_KEYS
    ensures "tab.border" in COMPAT_CONTRAST_KEYS_2
  {
    var k := "titleBar.activeBackground";
    var l := COMPAT_CONTRAST_KEYS_2;
    assert l[0][1] != k[1] && |l[1]| != |k| && |l[2]| != |k| && l[3][0] != k[0] && |l[4]| != |k|;
    assert COMPAT_CONTRAST_KEYS[4] == k;
    assert l[0] == "tab.border";
  }

  /** The compatibility block of `main` on the document: only its `colors` table changes. */
  function CompatPass(root: Value, oled: bool): (r: Value)
    ensures root.Table? <==> r.Table?
  {
    match Lookup(root, "colors")
    case Some(Table(es)) => Put(root, "colors", Table(CompatTable(es, oled)))
    case _ => root
  }

  lemma CompatPassOthers(root: Value, oled: bool, k: string)
    requires k != "colors"
    ensures Lookup(CompatPass(root, oled), k) == Lookup(root, k)
  {
    match Lookup(root, "colors")
    case Some(Table(es)) =>
      var t := CompatTable(es, oled);
      PutOthers(root, "colors", Table(t), k);
    case _ =>
  }
}
