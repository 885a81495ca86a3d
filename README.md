# Oxocarbon theme toolchain, modelled in Dafny

The Oxocarbon colour theme for VS Code is compiled from a TOML source by a
small Rust program. The program can make an OLED variant, a monochrome
variant, a "compatibility" variant with contrasting panels and a print
variant. Three converters turn the resulting VS Code theme into other
formats: a Sublime Text adaptive theme (json2st), an Xcode colour theme
(json2xccolor) and a TextMate theme (json2tm). This project models the
decisions these programs make and proves what they guarantee. It covers:

- **The hex colour codec** shared through `oxocarbon-utils` (`hex_color.dfy`).
  - Parsing `#RGB`, `#RGBA`, `#RRGGBB` and `#RRGGBBAA`, the notation of
    section 5.2 of CSS Color Module Level 4, through a 256-entry decode table
    and a 32-bit accumulator.
  - Lowercase formatting into a fixed-size buffer.
  - The bit-trick channel average and the midpoint of two colours.
  - The joining of list scopes.
- **The monochrome ramps** (`ramp.dfy`).
  - The extras and the family's shades are read in order.
  - A 64-bit "seen" mask keeps an entry only when its packed value mod 64
    has not been seen before. The result is sorted by luminance.
  - Which shades each family loses to the mask is computed and proved.
  - Also covered: the family aliases, the nearest shade and the exact accent
    allow-list.
- **The theme compiler's passes** on the parsed document.
  - `theme_options.dfy`: the command line loop.
  - `theme_oled.dfy`: the OLED substring replacements.
  - `theme_mono.dfy`: the monochrome substitution and the style overrides.
  - `theme_compat.dfy`: the compatibility writes.
  - `theme_invert.dfy`: the print inversion.
  - `theme_compiler.dfy`: the theme name and the order `main` runs the
    passes in.
  - The document is a tree of `Str | Arr | Table | Other` values
    (`value_tree.dfy`), walked leaf by leaf.
- **The converters.** `sheet_theme.dfy` covers json2st's colour lookups and
  fallback cascades. `xcode_theme.dfy` covers json2xccolor's scope matching
  and its colour and font tables. `textmate_theme.dfy` covers json2tm's
  settings list.

The loops the source writes as loops are methods with loop invariants, each
proved equal to a specification function:

- `BuildHexDecode`, `DecodeHexU32` and `FormatHexColor` (that one over an
  `array<char>` buffer);
- `BuildRamp`, `FromEnvArgs`, `ReplaceAll`, `InsertValue` and
  `ApplyMonochromeStyleOverrides`;
- `SyntaxColors` and `SyntaxFonts`.

The two `main` functions of the converters and json2tm's five `remove` calls
run straight through, without a loop; they are methods too (`Convert` in
`XcodeTheme` and in `TextMateTheme`, and `AnonFrom`), with contracts that
state their whole result.

The properties the programs promise are proved as lemmas about those
functions. Helper modules:

- `text.dfy`: the string operations of Rust's `str` that the code relies on.
- `wrappers.dfy`: `Option` and `filter_map`.

Three consequences of the code as written:

- **Dedup in `build_ramp`.** A colour is kept only when bit `packed % 64` of
  the `u64` mask `seen` is still clear (src/ramp.rs:100-104). Distinct shades
  whose packed values agree mod 64 collide, and the later one is dropped:
  `#dde1e6` in every family, `#343a3f` and `#878d96` in cool gray, `#3c3838`
  and `#8f8b8b` in warm gray. `Ramp.GrayRampColours` and its two siblings
  state this.
- **Sort order.** The sort is `sort_unstable_by` (src/ramp.rs:109), so
  colours with equal luminance have no fixed order. The model promises a
  sorted permutation.
- **Compatibility colours.** The comments beside the compatibility block
  give `#1a1a1a` and `#050505` for c4. The code computes `#2f2f2f` and
  `#1e1e1e`, which `ThemeCompat.ColoursValues` proves.

Two functions are imported but not defined in the selected files:

- `pack_rgb` is taken to be `(R << 16) | (G << 8) | B`.
- `find_nearest_index` is a parameter `nearest`; its only property is the
  predicate `Ramp.NearestInRange`, that it returns an index of a non-empty
  list.

Luminance, computed in floating point, is a parameter `lum: Rgb -> real`.

## Model

| member | source | states |
|---|---|---|
| HexColor.ExpandNibble | oxocarbon-utils/src/lib.rs:6 | a nibble n is widened to the byte 17·n: n shifted left by four, ORed with n |
| HexColor.HexDecodeEntry | oxocarbon-utils/src/lib.rs:10-25 | a table entry is valid exactly for the characters `0-9a-fA-F`, and a valid entry is below 16 |
| HexColor.BuildHexDecode | oxocarbon-utils/src/lib.rs:10-25 | the two `while` loops fill a 256-entry array whose every entry is the entry above, all others staying `INVALID` |
| HexColor.DecodeNibble | oxocarbon-utils/src/lib.rs:29-36 | a character decodes iff it is a hex digit, to a value below 16 |
| HexColor.DecodeNibbleLower | oxocarbon-utils/src/lib.rs:17-23 | upper- and lowercase letters decode to the same value |
| HexColor.NibbleSpelling | oxocarbon-utils/src/lib.rs:29-36 | the lowercase digit table spells a decoded value back as the lowercase of its character |
| HexColor.HexFold | oxocarbon-utils/src/lib.rs:38-45 | the fold succeeds iff every character is a hex digit, and its value fits in 32 bits |
| HexColor.DecodeHexU32 | oxocarbon-utils/src/lib.rs:38-45 | the accumulator loop, stopping at the first bad digit, returns the fold |
| HexColor.HexFoldExact | oxocarbon-utils/src/lib.rs:38-45 | for up to 8 digits the 32-bit accumulator never wraps: the fold is the exact base-16 value, below 16^n |
| HexColor.ParseHexRgbaU8 | oxocarbon-utils/src/lib.rs:49-91 | Some iff the input is `#` plus 3, 4, 6 or 8 hex digits; alpha is present iff there are 4 or 8 digits |
| HexColor.ParseShorthand | oxocarbon-utils/src/lib.rs:52-70 | 3 and 4 digits give channels 17·digit, the 4th digit being alpha and the 3-digit form having none |
| HexColor.ParseLonghand | oxocarbon-utils/src/lib.rs:71-88 | 6 and 8 digits give one channel per digit pair, the 4th pair being alpha |
| HexColor.ParseIgnoresCase | oxocarbon-utils/src/lib.rs:49-91 | parsing the lowercase form of any string gives the same result |
| HexColor.FormatHexColor | oxocarbon-utils/src/lib.rs:126-146 | the buffer loop writes `#` and two lowercase digits per channel, then alpha when present: the string `FormatHex` defines |
| HexColor.FormatShape | oxocarbon-utils/src/lib.rs:126-146 | the text is 7 characters, or 9 with alpha; it starts with `#` and then has only lowercase hex digits |
| HexColor.ParseFormat | oxocarbon-utils/src/lib.rs:49-146 | round trip: parsing a formatted colour gives back its channels and alpha |
| HexColor.FormatParse | oxocarbon-utils/src/lib.rs:49-146 | round trip: formatting a parsed 6- or 8-digit colour gives the lowercase form of the input |
| HexColor.AvgBits | oxocarbon-utils/src/lib.rs:157 | on bytes, `(a & b) + ((a ^ b) >> 1)` with wrap-around equals ⌊(a+b)/2⌋ and never overflows |
| HexColor.AverageChannel | oxocarbon-utils/src/lib.rs:157 | the average is ⌊(a+b)/2⌋ and lies between min(a,b) and max(a,b) |
| HexColor.MidpointHex | oxocarbon-utils/src/lib.rs:161-169 | with both inputs required to parse (strict_rgb panics otherwise, lines 185-193), the result is the `format_hex_color` text of the per-channel averages with no alpha: 7 lowercase characters starting with `#`, parsing back to those averages |
| HexColor.MidpointSymmetric | oxocarbon-utils/src/lib.rs:161-169 | the midpoint does not depend on argument order |
| HexColor.MidpointSelf | oxocarbon-utils/src/lib.rs:161-169 | the midpoint of a 6-digit colour with itself is its lowercase form |
| HexColor.DeserializeScope | oxocarbon-utils/src/lib.rs:199-207 | a missing scope stays missing, a string scope is kept and a list scope is joined with `", "` |
| XcodeTheme.ScopeRoundTrip | json2xccolor/src/main.rs:35-40 | a list of clean scopes joined with `", "`, as `deserialize_scope` does, splits back into the same list in json2xccolor |
| Ramp.PackRgbChannels | src/ramp.rs:100 | the assumed 24-bit packing holds the three channels in its three bytes |
| Ramp.PackRgbInjective | src/ramp.rs:100 | distinct colours pack to distinct values |
| Ramp.SeenBitIsPacked | src/ramp.rs:100-104 | the mask bit tested is the packed value mod 64 |
| Ramp.Rgbs | src/ramp.rs:99 | the shades decode, one colour per shade, in order |
| Ramp.DedupIsFirstOfEachBit | src/ramp.rs:96-107 | the kept colours are exactly those whose bit no earlier colour set, in their original order |
| Ramp.DedupDistinct | src/ramp.rs:96-107 | the kept colours are drawn from the input and pairwise distinct |
| Ramp.Entries | src/ramp.rs:105-106 | each kept colour is paired with its luminance |
| Ramp.Insert | src/ramp.rs:109 | inserting into a sorted list keeps it sorted and adds just that element |
| Ramp.SortByLum | src/ramp.rs:109 | the sort yields an ascending permutation of its input |
| Ramp.Unzip | src/ramp.rs:111 | the two lists have the length of the entries and hold their two halves position by position |
| Ramp.BuildRamp | src/ramp.rs:94-117 | the loop over extras then shades, with its `seen` mask, builds the ramp `RampOf` defines |
| Ramp.RampProperties | src/ramp.rs:94-117 | the ramp is ascending by luminance; `luminances[k]` is the luminance of `rgbs[k]`; both lists have the same length, at most 13 + the number of shades; the colours are exactly the kept ones |
| Ramp.GrayRampColours | src/ramp.rs:98-104 | the gray ramp has 18 colours: every extra and gray shade except `#dde1e6` |
| Ramp.CoolGrayRampColours | src/ramp.rs:98-104 | the cool ramp has 18 colours; `#dde1e6`, `#343a3f` and `#878d96` are dropped |
| Ramp.WarmGrayRampColours | src/ramp.rs:98-104 | the warm ramp has 20 colours; `#dde1e6`, `#3c3838` and `#8f8b8b` are dropped |
| Ramp.FamilyOf | src/ramp.rs:120-127 | `coolgray`, `cool-gray` and `cool` select cool gray; `warmgray`, `warm-gray` and `warm` select warm gray; nothing else selects either |
| Ramp.FamilyAliasesExact | src/ramp.rs:122-126 | the aliases match exactly: `Cool`, `COOLGRAY`, `cool_gray` and `warm gray` select the default ramp |
| Ramp.SelectMonochromeRamp | src/ramp.rs:120-127 | the ramp selected is the one built from the family the name selects |
| Ramp.SelectedRampWellFormed | src/ramp.rs:86-127 | every selectable ramp is non-empty, has at most 23 colours, is ascending and pairs each colour with its luminance |
| Ramp.NearestRgb | src/ramp.rs:76-78 | given an in-range index search, the shade returned is a colour of the ramp |
| Ramp.NearestIsAShade | src/ramp.rs:76-78 | the shade picked is one of the extras or of the family's shades |
| Ramp.CandidateIsExact | src/ramp.rs:130-133 | a colour is a candidate iff it is one of the ten accents, or `#0f62fe` for print: exact membership |
| ThemeOptions.SwitchBit | src/main.rs:21-39 | every argument maps to one of the five distinct switch bits or to none |
| ThemeOptions.FromEnvArgs | src/main.rs:26-58 | the argument loop ends in the outcome `ParseArgs` defines, from no switches, no family and input `-` |
| ThemeOptions.ParseArgsClassified | src/main.rs:26-58 | the loop exits with code 2 iff a family switch has no value; otherwise its options are all switch bits ORed together, the last family given (lowercased) and the first other argument that is not `-` |
| ThemeOptions.SwitchOnIffRead | src/main.rs:60-79 | the bit an accessor tests is set iff a switch argument with that bit was read |
| ThemeOptions.RepeatedSwitch | src/main.rs:35-39 | giving a switch twice changes nothing |
| ThemeOptions.MissingFamilyExits | src/main.rs:40-48 | a family switch as the last argument exits with code 2 |
| ThemeOled.ReplaceFirst | src/main.rs:234-235 | only the first occurrence of the pattern is replaced, the text around it kept; a string without it is unchanged |
| ThemeOled.ReplaceAll | src/main.rs:231-239 | the loop applies the rules in table order, as `ApplyRules` defines |
| ThemeOled.NoPatternUnchanged | src/main.rs:231-239 | a string containing no pattern is unchanged |
| ThemeOled.OledOnColours | src/main.rs:176-184 | each of the seven replaced colours ends as its replacement (`#393939` becomes `#262626` and is not rewritten again) |
| ThemeOled.ColorsTable | src/main.rs:221-223 | the `colors` table is found iff the root has a table under `colors` |
| ThemeOled.OledPassEffect | src/main.rs:93-97 | only the `colors` table changes: same shape, each of its strings replaced by rule, every other key of the root kept |
| ThemeCompat.InsertValue | src/main.rs:225-229 | the insert loop writes the value under every listed key |
| ThemeCompat.InsertAllGet | src/main.rs:225-229 | after the writes a listed key holds the value and every other key its old value |
| ThemeCompat.ColoursValues | src/main.rs:113-133 | the four colours are `#1e1e1e`, `#131313`, `#393939`, `#2f2f2f`, or `#0b0b0b`, `#030303`, `#262626`, `#1e1e1e` for OLED |
| ThemeCompat.CompatGet | src/main.rs:109-134 | each key holds the colour of the last key list that names it, and unlisted keys are kept |
| ThemeCompat.OverlappingKeys | src/main.rs:186-219 | last write wins: `titleBar.activeBackground` ends with c3 and `tab.border` with c4 |
| ThemeCompat.CompatPassOthers | src/main.rs:109-134 | keys of the root other than `colors` are untouched |
| ThemeMono.MonoString | src/main.rs:405-419 | a string that is not a candidate colour stays; a candidate is rewritten to the `format_hex_color` text of the picked ramp shade with its alpha, unless the pick is the colour itself, in which case the string stays as written; either way it parses to the pick and the alpha |
| ThemeMono.ApplyMonochromeEffect | src/main.rs:405-419 | the walk keeps the shape; a string that changes was a candidate and now is a ramp colour with the same alpha |
| ThemeMono.PickNotCandidate | src/main.rs:410-416 | a picked ramp shade is never itself a candidate |
| ThemeMono.ApplyMonochromeIdempotent | src/main.rs:405-419 | applying the monochrome pass twice gives what one application gives |
| ThemeMono.StyleForeground | src/main.rs:443-450 | a foreground is forced iff the style contains `italic` or `Italic`, or is `bold` trimmed and ignoring ASCII case; italic wins with `#f2f4f8` |
| ThemeMono.ApplyMonochromeStyleOverrides | src/main.rs:428-452 | the loop over `tokenColors` rewrites every entry as `OverrideItem` does |
| ThemeMono.OverrideItemEffect | src/main.rs:435-451 | an entry with a string `fontStyle` that forces a colour gets that `foreground`, nothing else changing; any other entry is unchanged |
| ThemeMono.ItalicExamples | src/main.rs:443 | `bold italic` and `Italic` force `#f2f4f8` |
| ThemeMono.BoldExample | src/main.rs:444 | ` Bold ` forces `#ffffff` |
| ThemeMono.UpperItalicExample | src/main.rs:443 | `ITALIC` forces nothing: only `italic` and `Italic` are looked for |
| ThemeMono.BoldUnderlineExample | src/main.rs:444 | `bold underline` forces nothing |
| ThemeInvert.InvertChannel | src/main.rs:474 | `!c` on a byte is 255 − c |
| ThemeInvert.InvertRgbInvolutive | src/main.rs:474 | complementing twice gives the colour back |
| ThemeInvert.InvertString | src/main.rs:472-476 | a non-colour is kept; a colour is rewritten to the `format_hex_color` text of its complement with its alpha, which parses back to that complement and alpha |
| ThemeInvert.InvertStringTwice | src/main.rs:471-478 | inverting twice gives the colour's lowercase long form, so a lowercase 6- or 8-digit colour comes back unchanged |
| ThemeInvert.InvertAllTwice | src/main.rs:471-478 | on a document whose colours are canonical, inverting twice changes nothing |
| ThemeInvert.InvertKeepsText | src/main.rs:473 | a string not starting with `#` is never rewritten |
| ThemeCompiler.ThemeName | src/main.rs:241-270 | there is no name iff monochrome, OLED and compatibility are all off |
| ThemeCompiler.ThemeNameParts | src/main.rs:241-270 | the name is `Oxocarbon`, ` OLED`, ` Monochrom` with the tag of the family the ramp uses, and ` (compatibility)`, each part present with its switch |
| ThemeCompiler.AfterOled | src/main.rs:93-97 | the OLED stage keeps the root a table |
| ThemeCompiler.CompileDefault | src/main.rs:92-156 | with no switch set the document comes out unchanged |
| ThemeCompiler.StagesKeepTable | src/main.rs:92-156 | every stage keeps the root a table, so the `expect`/`unwrap` on it never fail |
| ThemeCompiler.CompileName | src/main.rs:136-156 | the document written carries the computed name (the print inversion leaves it alone) |
| ThemeCompiler.CompilePrintType | src/main.rs:149-156 | the print variant is of type `light` |
| Toml.MapStringsWalk | src/main.rs:454-463 | the walk keeps the shape and keys and applies `f` to every string leaf, in order, once |
| Toml.MapEntries | src/main.rs:465-469 | walking a table walks each of its values, keeping the keys |
| Toml.MapStringsFixed | src/main.rs:454-463 | a walk whose function fixes every string changes nothing |
| Toml.MapStringsCompose | src/main.rs:454-463 | two walks are the walk of the composed function |
| Toml.InsertGet | src/main.rs:225-229 | after an insert the key holds the new value and every other key its old one |
| Toml.InsertDistinct | src/main.rs:225-229 | an insert keeps the keys of a table distinct: an existing key is overwritten in place, a new one appended |
| Toml.Lookup | src/main.rs:221-223 | a key is found only in a table, as the table's entry |
| Toml.Put | src/main.rs:143-146 | an insert into the root changes a table and leaves any other value alone |
| Text.Find | src/main.rs:234 | the first position where the pattern occurs, or none when it occurs nowhere |
| Text.Trim | src/main.rs:444 | the slice of the input after a white-space prefix and before a white-space suffix, with no white space left at either end |
| Text.Split | json2xccolor/src/main.rs:35-37 | at least one piece, none containing the separator |
| Text.SplitJoin | json2xccolor/src/main.rs:35-37 | splitting a join of pieces without the separator gives the pieces back |
| Text.JoinSplit | json2xccolor/src/main.rs:35-37 | joining the pieces of a split with the separator gives the input back |
| Text.Lower | src/main.rs:42 | each character lowercased, the length kept |
| SheetTheme.GetStr | json2st/src/main.rs:14-18 | required present as a string (the program panics otherwise), it is the string under the key |
| SheetTheme.FindColor | json2st/src/main.rs:677-683 | the string of the first key, in list order, that holds a string; none iff no key does |
| SheetTheme.FindColorAppend | json2st/src/main.rs:677-683 | searching two lists in a row is searching the second only when the first finds nothing |
| SheetTheme.CompatibilityIff | json2st/src/main.rs:685-693 | compatibility iff the activity bar, side bar or panel holds a string other than the editor background |
| SheetTheme.InferSheetColor | json2st/src/main.rs:695-707 | when both parse, the `format_hex_color` text of the per-channel floor averages without alpha, 7 characters starting with `#` and parsing back to those averages; otherwise `base` |
| SheetTheme.InferSheetSelf | json2st/src/main.rs:695-707 | the sheet colour between a 6-digit colour and itself is its lowercase form |
| SheetTheme.LevelsFallBack | json2st/src/main.rs:145-225 | each background level is its own colour or else the level before it, the first one falling back to the background |
| SheetTheme.LevelsAllBackground | json2st/src/main.rs:145-225 | with no level key present every level is the background |
| SheetTheme.CompatDarkest | json2st/src/main.rs:145-153 | in the compatibility branch the darkest level is always the editor background |
| SheetTheme.Contrast | json2st/src/main.rs:236-246 | the contrast is one of the five bands |
| SheetTheme.ContrastNonIncreasing | json2st/src/main.rs:236-246 | a brighter background never gets a higher contrast |
| SheetTheme.Sheets | json2st/src/main.rs:507-510 | each sheet modifier is the sheet colour between a level and the next one (background first, foreground last) |
| SheetTheme.ColoursFallBack | json2st/src/main.rs:40-225 | accent falls back to the foreground, each of the eight hues to the accent, and the compatibility darkest level to the background |
| SheetTheme.ColoursCascade | json2st/src/main.rs:145-518 | the levels and sheet modifiers the variables receive follow the cascade and the sheets above |
| XcodeTheme.ScopeMatchesIff | json2xccolor/src/main.rs:73-75 | a scope matches iff it is the pattern or starts with the pattern and a dot |
| XcodeTheme.ScopeMatchesExamples | json2xccolor/src/main.rs:73-75 | `comment.line.double-slash` matches `comment`; `commentary` does not, nor does `comment` match `comment.doc` |
| XcodeTheme.TidyPartsMembers | json2xccolor/src/main.rs:35-40 | the tidied scopes are exactly the non-empty trimmed pieces |
| XcodeTheme.ScopeListClean | json2xccolor/src/main.rs:35-40 | every scope split from a string is non-empty, trimmed and comma-free |
| XcodeTheme.StringItems | json2xccolor/src/main.rs:41-45 | a list scope keeps exactly its string items |
| XcodeTheme.TokensHaveScopes | json2xccolor/src/main.rs:30-63 | every kept token has at least one scope |
| XcodeTheme.FirstMatchFrom | json2xccolor/src/main.rs:79-81 | the first token, in order, with a scope matching the pattern |
| XcodeTheme.PatternColorFirst | json2xccolor/src/main.rs:78-83 | a pattern's colour is that of its first matching token; there is none when that token has no valid foreground |
| XcodeTheme.ColorFor | json2xccolor/src/main.rs:77-86 | the colour of the first pattern that yields one; none iff no pattern does |
| XcodeTheme.StyleFor | json2xccolor/src/main.rs:114-123 | bold (italic) iff some token matching some pattern of the key says bold (italic) |
| XcodeTheme.FontNames | json2xccolor/src/main.rs:103-112 | the font is SFProText for comment keys and SFMono otherwise, Bold iff bold, ending `Italic - 14.0` iff italic |
| XcodeTheme.CollectGet | json2xccolor/src/main.rs:77-86 | a key has an entry iff some mapping for it yields one, the last such write winning |
| XcodeTheme.SyntaxColors | json2xccolor/src/main.rs:77-86 | the loop over the mappings builds the colour table `Collect` defines |
| XcodeTheme.SyntaxFonts | json2xccolor/src/main.rs:114-128 | the loop over the mappings builds the font table `Collect` defines |
| XcodeTheme.PlainIsNew | json2xccolor/src/main.rs:165-239 | no mapping is for `xcode.syntax.plain`, so its font is always the regular SFMono |
| XcodeTheme.FirstMissing | json2xccolor/src/main.rs:134-154 | the first required key, in order, without a valid colour; none iff all have one |
| XcodeTheme.SyntaxTables | json2xccolor/src/main.rs:77-132 | both tables as built, with the plain colour and the regular font under `xcode.syntax.plain` |
| XcodeTheme.EditorColors | json2xccolor/src/main.rs:145-150 | the four editor colours, or the first of their keys without a valid colour |
| XcodeTheme.Convert | json2xccolor/src/main.rs:20-154 | `Missing name`, `Missing colors`, `Missing tokenColors`, the `Invalid color` of the first bad required key in the code's order, or else the plist root of all the tables above |
| XcodeTheme.ConvertedTables | json2xccolor/src/main.rs:88-132 | plain holds the editor foreground in regular SFMono; a key has a colour iff a pattern yields one; every key mapped has a font, chosen from its styles |
| TextMateTheme.TokenScope | json2tm/src/main.rs:71-87 | a missing scope stays missing, a string scope is kept as written and a list scope is joined with `", "` |
| TextMateTheme.Remove | json2tm/src/main.rs:100-104 | `remove` returns the key's value when present and leaves the map without that key, all else kept |
| TextMateTheme.AnonFrom | json2tm/src/main.rs:98-106 | the anonymous fields are the values of `editor.background`, `editor.foreground`, `editorCursor.foreground`, `editor.selectionBackground` and `focusBorder`, each None when absent |
| TextMateTheme.SettingOf | json2tm/src/main.rs:109-117 | a token gives a setting iff it has a scope, with its settings and its name or `""` |
| TextMateTheme.Convert | json2tm/src/main.rs:92-125 | the theme is the name, the anonymous setting followed by the tokens' settings, the given uuid and `MIT` |
| TextMateTheme.SettingsShape | json2tm/src/main.rs:108-118 | the anonymous setting comes first; every later setting is the setting of a token that has a scope, and with every token scoped they are all of them in order |

## Left out

- Floating-point colour maths is not modelled: `luminance_from_u8`, the sRGB
  transfer functions, `midpoint_hex_linear`, `parse_hex_rgba_f32` and the
  rounding in json2xccolor's `format_rgba`. Luminance is a parameter
  `lum: Rgb -> real`. The Xcode tables hold the parsed channels rather than
  their floating-point text.
- `find_nearest_index` and `pack_rgb` are not part of this model. The first
  is a parameter constrained by `Ramp.NearestInRange`; the second is defined
  as the 24-bit packing, as an assumption.
- The `OnceLock` cache and `Box::leak` are left out. The ramps are values
  computed by `Ramp.BuildMonochromeRamps`.
- The `unsafe` `set_len` in `format_hex_color` is left out. The buffer is a
  fresh `array<char>` filled by the loop.
- I/O is left out: reading and parsing TOML and JSON, writing JSON and plist,
  `read_input`, the usage message for a wrong number of arguments to json2xccolor, and serde's
  errors. The converters start from an already parsed document.
- json2st's and json2xccolor's JSON documents use the same `Toml.Value` tree
  as the compiler. json2tm's maps are Dafny `map`s.
- The text of the variables in json2st's `build_variables` is left out: the
  formatted contrast and alpha strings, and the JSON opacity literals. Only
  the colours it derives are modelled, in `SheetTheme.Colours`.
- `Uuid::new_v4` is randomness. The uuid is a parameter of
  `TextMateTheme.Convert`.
- `dev/src/main.rs` (a file watcher) and `scripts/benchneon.py` (a benchmark)
  are not part of this model. They are I/O and timing.
- src/main.rs:272-426 repeats src/ramp.rs. It is modelled once, in `Ramp`.
- The panicking paths are excluded, not modelled. `get` in json2st
  (json2st/src/main.rs:14-18) panics on a missing or non-string colour, and
  `strict_rgb` (oxocarbon-utils/src/lib.rs:185-193) panics on a string that
  is not a colour. `SheetTheme.GetStr`, `HexColor.StrictRgb` and
  `HexColor.MidpointHex` require their inputs to be present and to parse, so
  the model says nothing about a run that would panic. `ThemeCompat.Colours`
  calls `MidpointHex` only on literal colours, which parse.
- Table key order is not modelled. A table is a list of distinct keys; an
  insert replaces a key in place or appends it. No modelled result depends on
  the order of a `BTreeMap` or `HashMap`.
- In-place mutation through `&mut` is modelled on values. Each pass is a
  function from the old document to the new one.
- Ramp.SortByLum: does not fix the order of entries with equal luminance.
  `sort_unstable_by` does not either; the model's insertion sort is one
  admissible order, and only "ascending and a permutation" is stated.
- Text.Lower: lowercases ASCII letters only, where Rust's `to_lowercase`
  (the `--mono-family` value, json2xccolor's font style) also maps other
  letters. `FamilyOf` and the style tests look only for ASCII words.
- Text.Trim: removes ASCII white space only, where Rust's `trim` also
  removes other Unicode white space.
- HexColor.ParseHexRgbaU8: reads characters, not UTF-8 bytes. The outcome is
  the same, because every byte of a non-ASCII character fails the decode
  table, just as the character fails the hex-digit test.
