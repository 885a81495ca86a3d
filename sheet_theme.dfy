/**
 * The colour derivations of the Sublime Text theme generator (json2st): the
 * VS Code `colors` map is read by first-present-key lookups with fallbacks,
 * the four background levels are chosen by one of two cascades, and the
 * sheet modifiers are midpoints of neighbouring levels.
 */
module SheetTheme {
  import opened Wrappers
  import opened HexColor
  import opened Toml

  /** The key holds a string in the map. */
  predicate HasString(colors: Entries, key: string)
  {
    Get(colors, key).Some? && Get(colors, key).value.Str?
  }

  /** `get`: the string under a key, which the program requires to be there. */
  function GetStr(colors: Entries, key: string): (v: string)
    requires HasString(colors, key)
    ensures Get(colors, key) == Some(Str(v))
  {
    Get(colors, key).value.s
  }

  /**
   * `find_color`: the string under the first key of the list that holds a
   * string; keys that are absent or hold another kind of value are skipped.
   */
  function FindColor(colors: Entries, keys: seq<string>): (r: Option<string>)
    ensures r.None? <==> forall i :: 0 <= i < |keys| ==> !HasString(colors, keys[i])
    ensures r.Some? ==> exists i :: (0 <= i < |keys| && Get(colors, keys[i]) == Some(Str(r.value))
      && forall j :: 0 <= j < i ==> !HasString(colors, keys[j]))
  {
    if keys == [] then None
    else if HasString(colors, keys[0]) then Some(GetStr(colors, keys[0]))
    else
      var r := FindColor(colors, keys[1..]);
      assert forall i :: 0 < i < |keys| ==> keys[1..][i - 1] == keys[i];
      if r.Some? then
        var i :| 0 <= i < |keys[1..]| && Get(colors, keys[1..][i]) == Some(Str(r.value))
          && forall j :: 0 <= j < i ==> !HasString(colors, keys[1..][j]);
        assert Get(colors, keys[i + 1]) == Some(Str(r.value));
        r
      else r
  }

  /** `Option::unwrap_or`. */
  function OrElse(o: Option<string>, d: string): string
  {
    if o.Some? then o.value else d
  }

  /** Looking in two lists one after the other is looking in the second only when the first has nothing. */
  lemma {:induction false} FindColorAppend(colors: Entries, a: seq<string>, b: seq<string>)
    ensures FindColor(colors, a + b) == if FindColor(colors, a).Some? then FindColor(colors, a) else FindColor(colors, b)
    decreases |a|
  {
    if a == [] {
      assert a + b == b;
    } else {
      assert (a + b)[0] == a[0] && (a + b)[1..] == a[1..] + b;
      FindColorAppend(colors, a[1..], b);
    }
  }

  /** A list that starts with a key holding a string finds that string. */
  lemma FindColorFirst(colors: Entries, keys: seq<string>)
    requires keys != [] && HasString(colors, keys[0])
    ensures FindColor(colors, keys) == Some(GetStr(colors, keys[0]))
  {
  }

  const ACTIVITY_BAR_BG := "activityBar.background"
  const SIDE_BAR_BG := "sideBar.background"
  const PANEL_BG := "panel.background"
  const EDITOR_BG := "editor.background"
  const EDITOR_FG := "editor.foreground"

  /**
   * `is_compatibility_variant`: the activity bar, side bar or panel
   * background differs from the editor background, an absent one counting
   * as equal.
   */
  predicate IsCompatibilityVariant(colors: Entries)
    requires HasString(colors, EDITOR_BG)
  {
    var editorBg := GetStr(colors, EDITOR_BG);
    OrElse(FindColor(colors, [ACTIVITY_BAR_BG]), editorBg) != editorBg
      || OrElse(FindColor(colors, [SIDE_BAR_BG]), editorBg) != editorBg
      || OrElse(FindColor(colors, [PANEL_BG]), editorBg) != editorBg
  }

  /** The variant test holds iff one of the three keys holds a string other than the editor background. */
  lemma CompatibilityIff(colors: Entries)
    requires HasString(colors, EDITOR_BG)
    ensures IsCompatibilityVariant(colors) <==>
      exists k :: k in [ACTIVITY_BAR_BG, SIDE_BAR_BG, PANEL_BG] &&
        HasString(colors, k) && GetStr(colors, k) != GetStr(colors, EDITOR_BG)
  {
    var ks := [ACTIVITY_BAR_BG, SIDE_BAR_BG, PANEL_BG];
    forall k | k in ks ensures FindColor(colors, [k]) == if HasString(colors, k) then Some(GetStr(colors, k)) else None {
    }
  }

  /**
   * `infer_sheet_color`: the per-channel floor average of the two colours,
   * without alpha, when both parse; otherwise the base unchanged.
   */
  function InferSheetColor(base: string, target: string): (r: string)
    ensures ParseHexRgbaU8(base).None? || ParseHexRgbaU8(target).None? ==> r == base
    ensures ParseHexRgbaU8(base).Some? && ParseHexRgbaU8(target).Some? ==>
      && |r| == 7 && r[0] == '#'
      && ParseHexRgbaU8(r) == Some((Rgb((StrictRgb(base).r + StrictRgb(target).r) / 2,
                                        (StrictRgb(base).g + StrictRgb(target).g) / 2,
                                        (StrictRgb(base).b + StrictRgb(target).b) / 2), None))
    ensures ParseHexRgbaU8(base).Some? && ParseHexRgbaU8(target).Some? ==>
      r == FormatHex(AverageRgb(StrictRgb(base), StrictRgb(target)), None)
  {
    if ParseHexRgbaU8(base).Some? && ParseHexRgbaU8(target).Some? then MidpointHex(base, target)
    else base
  }

  /** The sheet colour between a six-digit colour and itself is its lowercase form. */
  lemma InferSheetSelf(base: string)
    requires |base| == 7 && ParseHexRgbaU8(base).Some?
    ensures InferSheetColor(base, base) == Text.Lower(base)
  {
    MidpointSelf(base);
  }

  const ACCENT_KEYS: seq<string> := ["scmGraph.foreground1", "activityBar.activeBorder", "statusBarItem.warningForeground"]

  /** The keys of the eight hues: redish, pinkish, orangish, bluish, greenish, cyanish, purplish, yellowish. */
  const HUE_KEYS: seq<seq<string>> := [
    ["charts.red", "scmGraph.foreground1", "problemsErrorIcon.foreground",
     "gitDecoration.deletedResourceForeground", "testing.iconFailed"],
    ["charts.blue", "scmGraph.foreground2", "textLink.foreground",
     "editorSuggestWidget.focusHighlightForeground"],
    ["charts.orange", "scmGraph.foreground3", "list.warningForeground", "statusBarItem.warningForeground"],
    ["charts.yellow", "terminal.ansiBlue", "scmGraph.foreground4", "editorLink.activeForeground",
     "activityBar.activeBorder"],
    ["charts.green", "scmGraph.foreground5", "testing.iconPassed", "gitDecoration.addedResourceForeground"],
    ["charts.foreground", "scmGraph.foreground2", "gitDecoration.modifiedResourceForeground",
     "terminal.ansiCyan", "editorMarkerNavigationInfo.background"],
    ["charts.purple", "textLink.activeForeground", "problemsInfoIcon.foreground"],
    ["charts.yellow", "terminal.ansiBrightYellow", "testing.iconSkipped"]
  ]

  /** The keys of the four background levels in the compatibility branch. */
  const COMPAT_LEVEL_KEYS: seq<seq<string>> := [
    ["editor.background", "activityBar.background"],
    ["notebook.cellEditorBackground", "editorGroupHeader.tabsBackground", "panel.background", "sideBar.background"],
    ["panel.background", "activityBar.background", "sideBar.background"],
    ["activityBar.background", "panel.background", "titleBar.activeBackground"]
  ]

  /** The keys of the four background levels in the standard branch. */
  const STANDARD_LEVEL_KEYS: seq<seq<string>> := [
    ["activityBar.background", "sideBar.background", "panel.background", "editor.background"],
    ["editorGroupHeader.tabsBackground", "sideBar.background", "panel.background", "notebook.cellEditorBackground"],
    ["panel.background", "tab.inactiveBackground", "peekViewResult.background", "editorWidget.background"],
    ["menu.background", "titleBar.activeBackground", "list.inactiveSelectionBackground", "tab.hoverBackground"]
  ]

  /**
   * The cascade: level `i` is the colour found under its keys, or level
   * `i - 1` when there is none (level 0 falling back to the background).
   */
  function Levels(colors: Entries, keys: seq<seq<string>>, background: string): (ls: seq<string>)
    ensures |ls| == |keys|
    decreases |keys|
  {
    if keys == [] then []
    else
      var first := OrElse(FindColor(colors, keys[0]), background);
      [first] + Levels(colors, keys[1..], first)
  }

  /** Each level is its own colour or the one before it. */
  lemma {:induction false} LevelsFallBack(colors: Entries, keys: seq<seq<string>>, background: string, i: nat)
    requires i < |keys|
    ensures var ls := Levels(colors, keys, background);
      var prev := if i == 0 then background else ls[i - 1];
      ls[i] == OrElse(FindColor(colors, keys[i]), prev)
    decreases i
  {
    var ls := Levels(colors, keys, background);
    var first := OrElse(FindColor(colors, keys[0]), background);
    var rest := Levels(colors, keys[1..], first);
    assert ls == [first] + rest;
    if i > 0 {
      LevelsFallBack(colors, keys[1..], first, i - 1);
      assert keys[1..][i - 1] == keys[i];
      assert ls[i] == rest[i - 1];
      if i > 1 {
        assert ls[i - 1] == rest[i - 2];
      }
    }
  }

  /** With no level key holding a string, every level is the background. */
  lemma {:induction false} LevelsAllBackground(colors: Entries, keys: seq<seq<string>>, background: string)
    requires forall i, j :: 0 <= i < |keys| && 0 <= j < |keys[i]| ==> !HasString(colors, keys[i][j])
    ensures forall i :: 0 <= i < |keys| ==> Levels(colors, keys, background)[i] == background
    decreases |keys|
  {
    if keys != [] {
      LevelsAllBackground(colors, keys[1..], background);
      assert FindColor(colors, keys[0]).None?;
    }
  }

  /** The values `build_variables` derives from the colours (the variables' text is left out). */
  datatype SheetColours = SheetColours(
    background: string,
    foreground: string,
    accent: string,
    hues: seq<string>,
    levels: seq<string>,
    sheets: seq<string>,
    contrast: real,
    isLight: bool)

  /** The `contrast` band for a background luminance. */
  function Contrast(l: real): (c: real)
    ensures c in {3.0, 2.8, 2.5, 2.4, 2.2}
  {
    if l < 0.02 then 3.0
    else if l < 0.08 then 2.8
    else if l > 0.8 then 2.2
    else if l > 0.5 then 2.4
    else 2.5
  }

  /** A brighter background never asks for more contrast. */
  lemma ContrastNonIncreasing(l1: real, l2: real)
    requires l1 <= l2
    ensures Contrast(l2) <= Contrast(l1)
  {
  }

  /** The background's luminance, 0 when it does not parse. */
  function BackgroundLuminance(background: string, lum: Rgb -> real): real
  {
    match ParseHexRgbaU8(background)
    case Some((rgb, _)) => lum(rgb)
    case None => 0.0
  }

  /** The level keys `build_variables` uses: the compatibility ones for a compatibility variant. */
  function LevelKeys(colors: Entries): seq<seq<string>>
    requires HasString(colors, EDITOR_BG)
  {
    if IsCompatibilityVariant(colors) then COMPAT_LEVEL_KEYS else STANDARD_LEVEL_KEYS
  }

  /**
   * The four sheet modifiers: each sits between neighbouring levels, the
   * first between the background and level 1 and the last between level 3
   * and the foreground.
   */
  function Sheets(background: string, levels: seq<string>, foreground: string): (ss: seq<string>)
    requires |levels| == 4
    ensures |ss| == 4
    ensures forall i :: 0 <= i < 4 ==>
      ss[i] == InferSheetColor(if i == 0 then background else levels[i], if i == 3 then foreground else levels[i + 1])
  {
    [InferSheetColor(background, levels[1]), InferSheetColor(levels[1], levels[2]),
     InferSheetColor(levels[2], levels[3]), InferSheetColor(levels[3], foreground)]
  }

  /** `build_variables`, as far as the colours go. */
  function Colours(colors: Entries, lum: Rgb -> real): (sc: SheetColours)
    requires HasString(colors, EDITOR_BG) && HasString(colors, EDITOR_FG)
    ensures |sc.hues| == 8 && |sc.levels| == 4 && |sc.sheets| == 4
  {
    var background := GetStr(colors, EDITOR_BG);
    var foreground := GetStr(colors, EDITOR_FG);
    var accent := OrElse(FindColor(colors, ACCENT_KEYS), foreground);
    var hues := seq(8, i requires 0 <= i < 8 => OrElse(FindColor(colors, HUE_KEYS[i]), accent));
    var levels := Levels(colors, LevelKeys(colors), background);
    var l := BackgroundLuminance(background, lum);
    SheetColours(background, foreground, accent, hues, levels, Sheets(background, levels, foreground), Contrast(l), l > 0.5)
  }

  /**
   * The accent falls back to the foreground and every hue to the accent; in
   * the compatibility branch the darkest level is always the editor
   * background, since that key comes first in its list and is required.
   */
  lemma ColoursFallBack(colors: Entries, lum: Rgb -> real)
    requires HasString(colors, EDITOR_BG) && HasString(colors, EDITOR_FG)
    ensures var sc := Colours(colors, lum);
      && (FindColor(colors, ACCENT_KEYS).None? ==> sc.accent == sc.foreground)
      && (forall i :: 0 <= i < 8 && FindColor(colors, HUE_KEYS[i]).None? ==> sc.hues[i] == sc.accent)
      && (IsCompatibilityVariant(colors) ==> sc.levels[0] == sc.background)
  {
    ColoursParts(colors, lum);
    if IsCompatibilityVariant(colors) {
      CompatDarkest(colors);
    }
  }

  /** The fields of the colours that the fall-backs are about, one by one. */
  lemma ColoursParts(colors: Entries, lum: Rgb -> real)
    requires HasString(colors, EDITOR_BG) && HasString(colors, EDITOR_FG)
    ensures var sc := Colours(colors, lum);
      && sc.background == GetStr(colors, EDITOR_BG)
      && sc.foreground == GetStr(colors, EDITOR_FG)
      && sc.accent == OrElse(FindColor(colors, ACCENT_KEYS), sc.foreground)
      && (forall i :: 0 <= i < 8 ==> sc.hues[i] == OrElse(FindColor(colors, HUE_KEYS[i]), sc.accent))
      && sc.levels == Levels(colors, LevelKeys(colors), sc.background)
  {
  }

  lemma CompatDarkest(colors: Entries)
    requires HasString(colors, EDITOR_BG) && IsCompatibilityVariant(colors)
    ensures Levels(colors, COMPAT_LEVEL_KEYS, GetStr(colors, EDITOR_BG))[0] == GetStr(colors, EDITOR_BG)
  {
    LevelsFallBack(colors, COMPAT_LEVEL_KEYS, GetStr(colors, EDITOR_BG), 0);
    FindColorFirst(colors, COMPAT_LEVEL_KEYS[0]);
  }

  /**
   * Down the cascade each level is its own colour or the one above it, and
   * the sheet modifiers sit between neighbouring levels: the background and
   * level 1, levels 1 and 2, levels 2 and 3, level 3 and the foreground.
   */
  lemma ColoursCascade(colors: Entries, lum: Rgb -> real, i: nat)
    requires HasString(colors, EDITOR_BG) && HasString(colors, EDITOR_FG)
    requires i < 4
    ensures var sc := Colours(colors, lum);
      && sc.levels[i] == OrElse(FindColor(colors, LevelKeys(colors)[i]), if i == 0 then sc.background else sc.levels[i - 1])
      && sc.sheets[i] == InferSheetColor(if i == 0 then sc.background else sc.levels[i], if i == 3 then sc.foreground else sc.levels[i + 1])
  {
    LevelsFallBack(colors, LevelKeys(colors), GetStr(colors, EDITOR_BG), i);
  }
}
