/**
 * The TextMate theme converter (json2tm): the editor colours go into one
 * anonymous setting at the head of the list, and every token rule that has
 * a scope becomes a named setting, in order. The theme arrives already
 * deserialised into its records; reading, comment stripping and writing
 * the plist lie outside the model.
 */
module TextMateTheme {
  import opened Wrappers
  import opened HexColor

  /** `TokenColor`: its scope already passed through `deserialize_scope`. */
  datatype TokenColor = TokenColor(name: Option<string>, scope: Option<string>, settings: map<string, string>)

  /** `VscodeTheme`. */
  datatype VscodeTheme = VscodeTheme(name: string, tokenColors: seq<TokenColor>, colors: map<string, string>)

  /** `AnonFields`. */
  datatype AnonFields = AnonFields(
    background: Option<string>,
    caret: Option<string>,
    foreground: Option<string>,
    selection: Option<string>,
    lineHighlight: Option<string>)

  /** `Setting`: a named one from a token rule, or the anonymous editor one. */
  datatype Setting =
    | Normal(name: string, scope: string, settings: map<string, string>)
    | Anon(fields: AnonFields)

  /** `TmTheme`. */
  datatype TmTheme = TmTheme(name: string, settings: seq<Setting>, uuid: string, license: string)

  /**
   * The scope of a token rule as json2tm's own `deserialize_scope` builds it,
   * which does what the shared helper does.
   */
  function TokenScope(scope: Option<Scope>): (r: Option<string>)
    ensures r.None? <==> scope.None?
    ensures scope.Some? && scope.value.S? ==> r == Some(scope.value.s)
    ensures scope.Some? && scope.value.V? ==> r == Some(Text.Join(scope.value.v, ", "))
  {
    DeserializeScope(scope)
  }

  /** `HashMap::remove`: the value under the key, and the map without it. */
  function Remove(m: map<string, string>, k: string): (r: (Option<string>, map<string, string>))
    ensures r.1.Keys == m.Keys - {k}
    ensures forall j :: j in r.1 ==> r.1[j] == m[j]
    ensures r.0.Some? <==> k in m
    ensures r.0.Some? ==> r.0.value == m[k]
  {
    (if k in m then Some(m[k]) else None, m - {k})
  }

  /**
   * The anonymous setting, built by removing the five keys from `colors` one
   * after the other: since the keys differ, each field is what `colors`
   * held under its key from the start.
   */
  method AnonFrom(colors: map<string, string>) returns (fields: AnonFields)
    ensures fields.background == Lookup(colors, "editor.background")
    ensures fields.foreground == Lookup(colors, "editor.foreground")
    ensures fields.caret == Lookup(colors, "editorCursor.foreground")
    ensures fields.selection == Lookup(colors, "editor.selectionBackground")
    ensures fields.lineHighlight == Lookup(colors, "focusBorder")
  {
    var m := colors;
    var background, foreground, caret, selection, lineHighlight;
    background, m := Remove(m, "editor.background").0, Remove(m, "editor.background").1;
    foreground, m := Remove(m, "editor.foreground").0, Remove(m, "editor.foreground").1;
    caret, m := Remove(m, "editorCursor.foreground").0, Remove(m, "editorCursor.foreground").1;
    selection, m := Remove(m, "editor.selectionBackground").0, Remove(m, "editor.selectionBackground").1;
    lineHighlight, m := Remove(m, "focusBorder").0, Remove(m, "focusBorder").1;
    fields := AnonFields(background, caret, foreground, selection, lineHighlight);
  }

  /** The editor colours of the anonymous setting, each under its own key of `colors`. */
  function EditorFields(colors: map<string, string>): AnonFields
  {
    AnonFields(Lookup(colors, "editor.background"), Lookup(colors, "editorCursor.foreground"),
               Lookup(colors, "editor.foreground"), Lookup(colors, "editor.selectionBackground"),
               Lookup(colors, "focusBorder"))
  }

  /** The value under a key of a map, if any. */
  function Lookup(m: map<string, string>, k: string): Option<string>
  {
    if k in m then Some(m[k]) else None
  }

  /** The closure of the `filter_map`: a rule with a scope becomes a named setting, a missing name the empty one. */
  function SettingOf(t: TokenColor): (r: Option<Setting>)
    ensures r.Some? <==> t.scope.Some?
    ensures r.Some? ==> (r.value.Normal? && r.value.scope == t.scope.value && r.value.settings == t.settings
      && r.value.name == (if t.name.Some? then t.name.value else ""))
  {
    match t.scope
    case Some(s) => Some(Normal(if t.name.Some? then t.name.value else "", s, t.settings))
    case None => None
  }

  /** `main` on the deserialised theme; the UUID, random in the source, is given. */
  method Convert(theme: VscodeTheme, uuid: string) returns (tm: TmTheme)
    ensures tm == TmTheme(theme.name, [Anon(EditorFields(theme.colors))] + FilterMap(SettingOf, theme.tokenColors),
                          uuid, "MIT")
  {
    var fields := AnonFrom(theme.colors);
    var settings := [Anon(fields)] + FilterMap(SettingOf, theme.tokenColors);
    tm := TmTheme(theme.name, settings, uuid, "MIT");
  }

  /**
   * The anonymous setting comes first and is the only anonymous one; every
   * other setting is a named one made from a rule that has a scope; and
   * when every rule has a scope there is one setting per rule, in order.
   */
  lemma SettingsShape(tokens: seq<TokenColor>, fields: AnonFields)
    ensures var ss := [Anon(fields)] + FilterMap(SettingOf, tokens);
      && ss[0] == Anon(fields)
      && (forall i :: 1 <= i < |ss| ==> (ss[i].Normal?
            && exists j :: 0 <= j < |tokens| && tokens[j].scope.Some? && SettingOf(tokens[j]) == Some(ss[i])))
      && ((forall j :: 0 <= j < |tokens| ==> tokens[j].scope.Some?) ==>
            |ss| == |tokens| + 1 && forall j :: 0 <= j < |tokens| ==> ss[j + 1] == SettingOf(tokens[j]).value)
  {
    var ss := [Anon(fields)] + FilterMap(SettingOf, tokens);
    forall i | 1 <= i < |ss|
      ensures ss[i].Normal? && exists j :: 0 <= j < |tokens| && tokens[j].scope.Some? && SettingOf(tokens[j]) == Some(ss[i])
    {
      assert ss[i] in FilterMap(SettingOf, tokens);
      FilterMapMembers(SettingOf, tokens, ss[i]);
    }
    if forall j :: 0 <= j < |tokens| ==> tokens[j].scope.Some? {
      FilterMapAll(SettingOf, tokens);
    }
  }
}
