/**
 * The Xcode colour theme converter (json2xccolor): the token rules of a
 * VS Code theme are reduced to their scopes, colour and style; each Xcode
 * syntax key takes the colour of the first rule that matches one of its
 * patterns and the font the styles of all its matching rules call for; the
 * editor colours come from the `colors` table. A colour is kept as the
 * channels it parses to; its floating-point text form is left out.
 */
module XcodeTheme {
  import opened Wrappers
  import opened Text
  import opened HexColor
  import opened Toml

  /** One token rule, as the converter keeps it: scopes, foreground, (bold, italic). */
  datatype TokenData = TokenData(scopes: seq<string>, color: Option<Rgba>, style: Option<(bool, bool)>)

  /** `scope_matches`: the scope is the pattern or continues it after a dot. */
  predicate ScopeMatches(s: string, pat: string)
  {
    StartsWith(s, pat) && (|s| == |pat| || s[|pat|] == '.')
  }

  /** A scope matches a pattern exactly when it is the pattern or starts with the pattern and a dot. */
  lemma ScopeMatchesIff(s: string, pat: string)
    ensures ScopeMatches(s, pat) <==> s == pat || StartsWith(s, pat + ".")
  {
    if StartsWith(s, pat) && |s| > |pat| {
      assert s[..|pat| + 1] == s[..|pat|] + [s[|pat|]];
    }
    if StartsWith(s, pat + ".") {
      assert s[..|pat|] == s[..|pat| + 1][..|pat|];
    }
  }

  /** A pattern never matches a scope that only shares a word prefix with it. */
  lemma ScopeMatchesExamples()
    ensures ScopeMatches("comment.line.double-slash", "comment")
    ensures !ScopeMatches("commentary", "comment")
    ensures !ScopeMatches("comment", "comment.doc")
  {
    assert "comment.line.double-slash"[..7] == "comment";
    assert "commentary"[7] == 'a';
  }

  /** The pieces of a comma-separated scope: trimmed, the empty ones dropped, in order. */
  function TidyParts(parts: seq<string>): seq<string>
  {
    if parts == [] then []
    else
      var t := Trim(parts[0]);
      if t == [] then TidyParts(parts[1..]) else [t] + TidyParts(parts[1..])
  }

  /** The tidied pieces are exactly the non-empty trimmed pieces. */
  lemma {:induction false} TidyPartsMembers(parts: seq<string>, x: string)
    ensures x in TidyParts(parts) <==> x != [] && exists j :: 0 <= j < |parts| && Trim(parts[j]) == x
  {
    if parts != [] {
      var rest := parts[1..];
      TidyPartsMembers(rest, x);
      if x in TidyParts(rest) {
        var j :| 0 <= j < |rest| && Trim(rest[j]) == x;
        assert Trim(parts[j + 1]) == x;
      }
      if x != [] && exists j :: 0 <= j < |parts| && Trim(parts[j]) == x {
        var j :| 0 <= j < |parts| && Trim(parts[j]) == x;
        if j > 0 {
          assert rest[j - 1] == parts[j];
        }
      }
    }
  }

  /** `s.split(',').map(str::trim).filter(|s| !s.is_empty())`. */
  function ScopeList(s: string): seq<string>
  {
    TidyParts(Split(s, ','))
  }

  /** A scope as the split leaves it: non-empty, no white space at either end, no comma. */
  predicate CleanScope(x: string)
  {
    x != [] && !IsSpace(x[0]) && !IsSpace(x[|x| - 1]) && forall c :: c in x ==> c != ','
  }

  /** Every scope of the list is clean. */
  lemma ScopeListClean(s: string, x: string)
    requires x in ScopeList(s)
    ensures CleanScope(x)
  {
    TidyPiece(Split(s, ','), x);
  }

  lemma TidyPiece(parts: seq<string>, x: string)
    requires forall i, j :: 0 <= i < |parts| && 0 <= j < |parts[i]| ==> parts[i][j] != ','
    requires x in TidyParts(parts)
    ensures CleanScope(x)
  {
    TidyPartsMembers(parts, x);
    var j :| 0 <= j < |parts| && Trim(parts[j]) == x;
    PieceNoComma(parts, j);
    TrimClean(parts[j]);
  }

  /** A piece without a comma that does not trim to nothing trims to a clean scope. */
  lemma TrimClean(p: string)
    requires forall j :: 0 <= j < |p| ==> p[j] != ','
    requires Trim(p) != []
    ensures CleanScope(Trim(p))
  {
    TrimNoComma(p);
  }

  lemma PieceNoComma(parts: seq<string>, i: nat)
    requires forall i, j :: 0 <= i < |parts| && 0 <= j < |parts[i]| ==> parts[i][j] != ','
    requires i < |parts|
    ensures forall j :: 0 <= j < |parts[i]| ==> parts[i][j] != ','
  {
  }

  /** Trimming a piece without a comma leaves none. */
  lemma TrimNoComma(p: string)
    requires forall j :: 0 <= j < |p| ==> p[j] != ','
    ensures forall c :: c in Trim(p) ==> c != ','
  {
    var a, b :| 0 <= a <= b <= |p| && Trim(p) == p[a..b];
    forall c | c in p[a..b] ensures c != ',' {
      var n :| a <= n < b && p[n] == c;
    }
  }

  /**
   * A list scope that the TextMate converter joins with `", "` splits back
   * into the same list here, when every scope in it is clean: the two
   * converters read a list scope alike.
   */
  lemma ScopeRoundTrip(v: seq<string>)
    requires v != []
    requires forall i :: 0 <= i < |v| ==> CleanScope(v[i])
    ensures DeserializeScope(Some(V(v))).Some?
    ensures ScopeList(DeserializeScope(Some(V(v))).value) == v
  {
    TidyJoin([], v);
    assert [] + Join(v, ", ") == Join(v, ", ");
  }

  /** The pieces of a joined list, the first one after some white space. */
  lemma TidyJoinOne(pre: string, x: string)
    requires forall j :: 0 <= j < |pre| ==> IsSpace(pre[j])
    requires CleanScope(x)
    ensures TidyParts(Split(pre + Join([x], ", "), ',')) == [x]
  {
    var head := pre + x;
    PaddedNoComma(pre, x);
    TrimPadded(pre, x);
    SplitNoSep(head, ',');
    TidyOne(head);
  }

  lemma {:induction false} TidyJoin(pre: string, v: seq<string>)
    requires v != []
    requires forall j :: 0 <= j < |pre| ==> IsSpace(pre[j])
    requires forall i :: 0 <= i < |v| ==> CleanScope(v[i])
    ensures TidyParts(Split(pre + Join(v, ", "), ',')) == v
    decreases |v|, 1
  {
    if |v| == 1 {
      TidyJoinOne(pre, v[0]);
      assert v == [v[0]];
    } else {
      assert forall i :: 0 <= i < |v| - 1 ==> v[1..][i] == v[i + 1];
      TidyJoinCons(pre, v[0], v[1..]);
      assert [v[0]] + v[1..] == v;
    }
  }

  lemma {:induction false} TidyJoinCons(pre: string, x: string, xs: seq<string>)
    requires xs != []
    requires forall j :: 0 <= j < |pre| ==> IsSpace(pre[j])
    requires CleanScope(x)
    requires forall i :: 0 <= i < |xs| ==> CleanScope(xs[i])
    ensures TidyParts(Split(pre + Join([x] + xs, ", "), ',')) == [x] + xs
    decreases |xs| + 1, 0
  {
    TidyJoin(" ", xs);
    TidyJoinStep(pre, x, xs);
  }

  /** One step of `TidyJoin`: the first scope, then the rest after `", "`. */
  lemma TidyJoinStep(pre: string, x: string, xs: seq<string>)
    requires xs != []
    requires forall j :: 0 <= j < |pre| ==> IsSpace(pre[j])
    requires CleanScope(x)
    requires TidyParts(Split(" " + Join(xs, ", "), ',')) == xs
    ensures TidyParts(Split(pre + Join([x] + xs, ", "), ',')) == [x] + xs
  {
    var head, tail := pre + x, " " + Join(xs, ", ");
    JoinPrepend(pre, x, xs);
    PaddedNoComma(pre, x);
    TrimPadded(pre, x);
    TidyPrepend(head, tail, x, xs);
  }

  lemma JoinPrepend(pre: string, x: string, xs: seq<string>)
    requires xs != []
    ensures pre + Join([x] + xs, ", ") == (pre + x) + [','] + (" " + Join(xs, ", "))
  {
    assert ([x] + xs)[0] == x && ([x] + xs)[1..] == xs;
  }

  /** `TidyCons` with the trimmed head and the tidied tail named. */
  lemma TidyPrepend(head: string, tail: string, x: string, xs: seq<string>)
    requires forall j :: 0 <= j < |head| ==> head[j] != ','
    requires Trim(head) == x && x != []
    requires TidyParts(Split(tail, ',')) == xs
    ensures TidyParts(Split(head + [','] + tail, ',')) == [x] + xs
  {
    TidyCons(head, tail);
  }

  lemma TidyOne(p: string)
    requires Trim(p) != []
    ensures TidyParts([p]) == [Trim(p)]
  {
    assert [p][1..] == [];
  }

  /** A piece without a comma, then a comma, then more text. */
  lemma TidyCons(head: string, tail: string)
    requires forall j :: 0 <= j < |head| ==> head[j] != ','
    requires Trim(head) != []
    ensures TidyParts(Split(head + [','] + tail, ',')) == [Trim(head)] + TidyParts(Split(tail, ','))
  {
    SplitConcat(head, ',', tail);
    var parts := [head] + Split(tail, ',');
    assert parts[0] == head && parts[1..] == Split(tail, ',');
  }

  lemma PaddedNoComma(pre: string, x: string)
    requires forall j :: 0 <= j < |pre| ==> IsSpace(pre[j])
    requires forall c :: c in x ==> c != ','
    ensures forall j :: 0 <= j < |pre + x| ==> (pre + x)[j] != ','
  {
    forall j | 0 <= j < |pre + x| ensures (pre + x)[j] != ',' {
      if j >= |pre| {
        assert (pre + x)[j] == x[j - |pre|] && x[j - |pre|] in x;
      } else {
        assert (pre + x)[j] == pre[j] && IsSpace(pre[j]);
      }
    }
  }

  /** The strings of an array scope, in order; other items are dropped. */
  function StringItems(items: seq<Value>): (r: seq<string>)
    ensures forall x :: x in r <==> exists i :: 0 <= i < |items| && items[i] == Str(x)
  {
    if items == [] then []
    else
      var rest := StringItems(items[1..]);
      assert forall i :: 0 < i < |items| ==> items[1..][i - 1] == items[i];
      if items[0].Str? then [items[0].s] + rest else rest
  }

  /** The scopes of a rule: a string is split, a list keeps its strings, anything else has none. */
  function ScopesOf(scope: Value): Option<seq<string>>
  {
    match scope
    case Str(s) => Some(ScopeList(s))
    case Arr(items) => Some(StringItems(items))
    case _ => None
  }

  /** `settings.foreground`, parsed. */
  function Foreground(settings: Value): Option<Rgba>
  {
    match Lookup(settings, "foreground")
    case Some(Str(s)) => ParseHexRgbaU8(s)
    case _ => None
  }

  /** `settings.fontStyle`, lowercased: whether it says bold and whether it says italic. */
  function FontStyle(settings: Value): Option<(bool, bool)>
  {
    match Lookup(settings, "fontStyle")
    case Some(Str(s)) => Some((Contains(Lower(s), "bold"), Contains(Lower(s), "italic")))
    case _ => None
  }

  /**
   * The closure of the `filter_map` over `tokenColors`: a rule without
   * settings, without a scope, with a scope of another kind or with no scope
   * left after tidying is dropped.
   */
  function TokenOf(item: Value): Option<TokenData>
  {
    match Lookup(item, "settings")
    case None => None
    case Some(settings) =>
      match Lookup(item, "scope")
      case None => None
      case Some(scope) =>
        match ScopesOf(scope)
        case None => None
        case Some(scopes) =>
          if scopes == [] then None
          else Some(TokenData(scopes, Foreground(settings), FontStyle(settings)))
  }

  /** `token_data`: the kept rules, in the order of the document. */
  function Tokens(items: seq<Value>): seq<TokenData>
  {
    FilterMap(TokenOf, items)
  }

  /** Every kept rule has at least one scope. */
  lemma TokensHaveScopes(items: seq<Value>, t: TokenData)
    requires t in Tokens(items)
    ensures t.scopes != []
  {
    FilterMapMembers(TokenOf, items, t);
  }

  /** Some scope of the rule matches the pattern. */
  predicate Matches(t: TokenData, pat: string)
  {
    exists i :: 0 <= i < |t.scopes| && ScopeMatches(t.scopes[i], pat)
  }

  /** The first rule at or after `from` that matches the pattern (`Iterator::find`). */
  function FirstMatchFrom(ts: seq<TokenData>, pat: string, from: nat): (r: Option<nat>)
    requires from <= |ts|
    ensures r.Some? ==> (from <= r.value < |ts| && Matches(ts[r.value], pat)
      && forall j :: from <= j < r.value ==> !Matches(ts[j], pat))
    ensures r.None? ==> forall j :: from <= j < |ts| ==> !Matches(ts[j], pat)
    decreases |ts| - from
  {
    if from == |ts| then None
    else if Matches(ts[from], pat) then Some(from)
    else FirstMatchFrom(ts, pat, from + 1)
  }

  function FirstMatch(ts: seq<TokenData>, pat: string): Option<nat>
  {
    FirstMatchFrom(ts, pat, 0)
  }

  /** The colour one pattern yields: that of the first rule that matches it, which may have none. */
  function PatternColor(ts: seq<TokenData>, pat: string): Option<Rgba>
  {
    match FirstMatch(ts, pat)
    case Some(j) => ts[j].color
    case None => None
  }

  /** A pattern's colour is that of its first matching rule, and none when that rule has none. */
  lemma PatternColorFirst(ts: seq<TokenData>, pat: string)
    ensures var r := PatternColor(ts, pat);
      && (r.Some? ==> exists j :: (0 <= j < |ts| && Matches(ts[j], pat) && ts[j].color == r
        && forall i :: 0 <= i < j ==> !Matches(ts[i], pat)))
      && (r.None? <==> forall j :: 0 <= j < |ts| && Matches(ts[j], pat) ==>
        (exists i :: 0 <= i < j && Matches(ts[i], pat)) || ts[j].color.None?)
  {
    match FirstMatch(ts, pat)
    case Some(j) =>
      assert forall k :: 0 <= k < |ts| && Matches(ts[k], pat) && k != j ==> j < k;
    case None =>
  }

  /**
   * The colour of a syntax key (`find_map` over its patterns): the first
   * pattern, in the key's order, whose first matching rule has a colour.
   */
  function ColorFor(ts: seq<TokenData>, pats: seq<string>): (r: Option<Rgba>)
    ensures r.None? <==> forall k :: 0 <= k < |pats| ==> PatternColor(ts, pats[k]).None?
    ensures r.Some? ==> exists k :: (0 <= k < |pats| && PatternColor(ts, pats[k]) == r
      && forall l :: 0 <= l < k ==> PatternColor(ts, pats[l]).None?)
  {
    var cs := seq(|pats|, k requires 0 <= k < |pats| => PatternColor(ts, pats[k]));
    FirstColor(ts, pats, cs);
    FirstSome(cs, 0)
  }

  /** The first present value among the patterns' colours, stated on the patterns. */
  lemma FirstColor(ts: seq<TokenData>, pats: seq<string>, cs: seq<Option<Rgba>>)
    requires |cs| == |pats| && forall k :: 0 <= k < |pats| ==> cs[k] == PatternColor(ts, pats[k])
    ensures var r := FirstSome(cs, 0);
      && (r.None? <==> forall k :: 0 <= k < |pats| ==> PatternColor(ts, pats[k]).None?)
      && (r.Some? ==> exists k :: (0 <= k < |pats| && PatternColor(ts, pats[k]) == r
        && forall l :: 0 <= l < k ==> PatternColor(ts, pats[l]).None?))
  {
    FirstSomeFirst(cs, 0);
  }

  /** The `find_map` over values already mapped: the first `Some` from `from` on. */
  function FirstSome<V>(cs: seq<Option<V>>, from: nat): Option<V>
    requires from <= |cs|
    decreases |cs| - from
  {
    if from == |cs| then None
    else if cs[from].Some? then cs[from]
    else FirstSome(cs, from + 1)
  }

  /** The search from `from` finds the first value from there on that is present. */
  lemma {:induction false} FirstSomeFirst<V>(cs: seq<Option<V>>, from: nat)
    requires from <= |cs|
    ensures FirstSome(cs, from).None? <==> forall k :: from <= k < |cs| ==> cs[k].None?
    ensures FirstSome(cs, from).Some? ==> exists k :: (from <= k < |cs| && cs[k] == FirstSome(cs, from)
      && forall l :: from <= l < k ==> cs[l].None?)
    decreases |cs| - from
  {
    if from < |cs| {
      if cs[from].None? {
        FirstSomeFirst(cs, from + 1);
        var r := FirstSome(cs, from + 1);
        if r.Some? {
          var k :| from + 1 <= k < |cs| && cs[k] == r && forall l :: from + 1 <= l < k ==> cs[l].None?;
          assert forall l :: from <= l < k ==> cs[l].None?;
        }
      } else {
        assert from <= from < |cs| && cs[from] == FirstSome(cs, from);
      }
    }
  }

  predicate IsBold(t: TokenData)
  {
    t.style.Some? && t.style.value.0
  }

  predicate IsItalic(t: TokenData)
  {
    t.style.Some? && t.style.value.1
  }

  /** The styles of the rules that match one pattern, or-ed together. */
  function StyleOver(ts: seq<TokenData>, pat: string): (r: (bool, bool))
    ensures r.0 <==> exists j :: 0 <= j < |ts| && Matches(ts[j], pat) && IsBold(ts[j])
    ensures r.1 <==> exists j :: 0 <= j < |ts| && Matches(ts[j], pat) && IsItalic(ts[j])
  {
    if ts == [] then (false, false)
    else
      var rest := StyleOver(ts[1..], pat);
      assert forall j :: 0 < j < |ts| ==> ts[1..][j - 1] == ts[j];
      var own := if Matches(ts[0], pat) && ts[0].style.Some? then ts[0].style.value else (false, false);
      (own.0 || rest.0, own.1 || rest.1)
  }

  /**
   * The fold over every rule that matches any of the key's patterns: bold
   * when one of them is bold, italic when one of them is italic.
   */
  function StyleFor(ts: seq<TokenData>, pats: seq<string>): (r: (bool, bool))
    ensures r.0 <==> exists k, j :: 0 <= k < |pats| && 0 <= j < |ts| && Matches(ts[j], pats[k]) && IsBold(ts[j])
    ensures r.1 <==> exists k, j :: 0 <= k < |pats| && 0 <= j < |ts| && Matches(ts[j], pats[k]) && IsItalic(ts[j])
  {
    if pats == [] then (false, false)
    else
      var rest := StyleFor(ts, pats[1..]);
      assert forall k :: 0 < k < |pats| ==> pats[1..][k - 1] == pats[k];
      var own := StyleOver(ts, pats[0]);
      (own.0 || rest.0, own.1 || rest.1)
  }

  /** `FONTS`, indexed by comment, bold, italic. */
  const FONTS: seq<seq<seq<string>>> := [
    [["SFMono-Regular - 14.0", "SFMono-RegularItalic - 14.0"],
     ["SFMono-Bold - 14.0", "SFMono-BoldItalic - 14.0"]],
    [["SFProText-Regular - 14.0", "SFProText-Italic - 14.0"],
     ["SFProText-Bold - 14.0", "SFProText-BoldItalic - 14.0"]]
  ]

  function Index(b: bool): nat
  {
    if b then 1 else 0
  }

  function Font(comment: bool, bold: bool, italic: bool): string
  {
    FONTS[Index(comment)][Index(bold)][Index(italic)]
  }

  /** The font of a syntax key: the text face for comment keys, the monospaced one otherwise. */
  function FontFor(key: string, style: (bool, bool)): string
  {
    Font(Contains(key, "comment"), style.0, style.1)
  }

  predicate EndsWith(s: string, suffix: string)
  {
    |suffix| <= |s| && s[|s| - |suffix|..] == suffix
  }

  /**
   * Each font name says what was asked for: the family is `SFProText` for
   * comments and `SFMono` otherwise, the face is bold exactly when bold was
   * asked for, and italic exactly when italic was.
   */
  lemma FontNames(comment: bool, bold: bool, italic: bool)
    ensures var f := Font(comment, bold, italic);
      var family := if comment then "SFProText-" else "SFMono-";
      && StartsWith(f, family)
      && (bold <==> StartsWith(f, family + "Bold"))
      && (italic <==> EndsWith(f, "Italic - 14.0"))
  {
    FontFamily(comment, bold, italic);
    FontWeight(comment, bold, italic);
    FontSlant(comment, bold, italic);
  }

  lemma FontFamily(comment: bool, bold: bool, italic: bool)
    ensures StartsWith(Font(comment, bold, italic), if comment then "SFProText-" else "SFMono-")
  {
    var f := Font(comment, bold, italic);
    var family := if comment then "SFProText-" else "SFMono-";
    assert f[..|family|] == family;
  }

  lemma FontWeight(comment: bool, bold: bool, italic: bool)
    ensures bold <==> StartsWith(Font(comment, bold, italic), (if comment then "SFProText-" else "SFMono-") + "Bold")
  {
    var f := Font(comment, bold, italic);
    var family := if comment then "SFProText-" else "SFMono-";
    if bold {
      assert f[..|family| + 4] == family + "Bold";
    } else {
      assert f[|family|] != 'B';
      assert (family + "Bold")[|family|] == 'B';
    }
  }

  lemma FontSlant(comment: bool, bold: bool, italic: bool)
    ensures italic <==> EndsWith(Font(comment, bold, italic), "Italic - 14.0")
  {
    if italic {
      SlantItalic(comment, bold);
    } else {
      SlantUpright(comment, bold);
    }
  }

  lemma SlantItalic(comment: bool, bold: bool)
    ensures EndsWith(Font(comment, bold, true), "Italic - 14.0")
  {
    var f := Font(comment, bold, true);
    assert f[|f| - 13..] == "Italic - 14.0";
  }

  lemma SlantUpright(comment: bool, bold: bool)
    ensures !EndsWith(Font(comment, bold, false), "Italic - 14.0")
  {
    var f := Font(comment, bold, false);
    assert f[|f| - 13] != 'I';
  }

  /** `COLOR_MAPPINGS`: each Xcode syntax key with its patterns, in order of preference. */
  const COLOR_MAPPINGS: seq<(string, seq<string>)> := [
    ("xcode.syntax.comment.doc.keyword", ["comment.doc.keyword"]),
    ("xcode.syntax.comment.doc", ["comment.doc"]),
    ("xcode.syntax.comment", ["comment"]),
    ("xcode.syntax.url", ["markup.underline.link"]),
    ("xcode.syntax.preprocessor", ["preproc", "keyword.control.directive", "punctuation.definition.directive"]),
    ("xcode.syntax.string", ["string.quoted", "string"]),
    ("xcode.syntax.character", ["constant.character", "string.character", "character"]),
    ("xcode.syntax.keyword", ["keyword", "storage.modifier", "keyword.operator"]),
    ("xcode.syntax.number", ["constant.numeric", "number"]),
    ("xcode.syntax.identifier.variable", ["variable.parameter", "variable"]),
    ("xcode.syntax.identifier.function",
     ["entity.name.function", "support.function", "storage.type.function", "function"]),
    ("xcode.syntax.identifier.type",
     ["entity.name.type", "support.type", "entity.name.namespace", "storage.type", "type"]),
    ("xcode.syntax.identifier.class",
     ["entity.name.class", "support.class", "entity.name.struct", "entity.name.enum", "class"]),
    ("xcode.syntax.identifier.constant", ["constant.language", "constant"]),
    ("xcode.syntax.identifier.macro", ["entity.name.macro"]),
    ("xcode.syntax.attribute", ["storage.type", "entity.other.attribute-name", "attribute"]),
    ("xcode.syntax.declaration.other",
     ["entity.name.function", "support.function", "storage.type.function", "function"])
  ]

  const PLAIN := "xcode.syntax.plain"

  /**
   * The map a loop over the mappings builds, inserting for each mapping in
   * turn the value `g` gives it, when it gives one.
   */
  function Collect<V>(ms: seq<(string, seq<string>)>, g: ((string, seq<string>)) -> Option<V>): map<string, V>
    decreases |ms|
  {
    if ms == [] then map[]
    else
      var m := Collect(ms[..|ms| - 1], g);
      var last := ms[|ms| - 1];
      match g(last)
      case Some(v) => m[last.0 := v]
      case None => m
  }

  /**
   * A key is in the map exactly when one of its mappings gives a value, and
   * then it holds the value of the last such mapping: a later insert wins.
   */
  lemma {:induction false} CollectGet<V>(ms: seq<(string, seq<string>)>, g: ((string, seq<string>)) -> Option<V>, k: string)
    ensures k in Collect(ms, g) <==> exists i :: 0 <= i < |ms| && ms[i].0 == k && g(ms[i]).Some?
    ensures k in Collect(ms, g) ==> exists i :: (0 <= i < |ms| && ms[i].0 == k
      && g(ms[i]) == Some(Collect(ms, g)[k])
      && forall j :: i < j < |ms| && ms[j].0 == k ==> g(ms[j]).None?)
    decreases |ms|
  {
    if ms != [] {
      var init := ms[..|ms| - 1];
      CollectGet(init, g, k);
      assert forall i :: 0 <= i < |init| ==> init[i] == ms[i];
    }
  }

  /** The colour a mapping gives its key. */
  function ColorOfMapping(ts: seq<TokenData>): ((string, seq<string>)) -> Option<Rgba>
  {
    (m: (string, seq<string>)) => ColorFor(ts, m.1)
  }

  /** The font a mapping gives its key; every mapping gives one. */
  function FontOfMapping(ts: seq<TokenData>): ((string, seq<string>)) -> Option<string>
  {
    (m: (string, seq<string>)) => Some(FontFor(m.0, StyleFor(ts, m.1)))
  }

  /** The first loop of `main`: each key with a colour is inserted, in the order of the mappings. */
  method SyntaxColors(ts: seq<TokenData>, ms: seq<(string, seq<string>)>) returns (m: map<string, Rgba>)
    ensures m == Collect(ms, ColorOfMapping(ts))
  {
    m := map[];
    for i := 0 to |ms|
      invariant m == Collect(ms[..i], ColorOfMapping(ts))
    {
      var key := ms[i].0;
      var pats := ms[i].1;
      assert ms[..i + 1][..i] == ms[..i];
      var color := ColorFor(ts, pats);
      if color.Some? {
        m := m[key := color.value];
      }
    }
    assert ms[..|ms|] == ms;
  }

  /** The second loop of `main`: every key gets a font, in the order of the mappings. */
  method SyntaxFonts(ts: seq<TokenData>, ms: seq<(string, seq<string>)>) returns (m: map<string, string>)
    ensures m == Collect(ms, FontOfMapping(ts))
  {
    m := map[];
    for i := 0 to |ms|
      invariant m == Collect(ms[..i], FontOfMapping(ts))
    {
      var key := ms[i].0;
      var pats := ms[i].1;
      assert ms[..i + 1][..i] == ms[..i];
      m := m[key := FontFor(key, StyleFor(ts, pats))];
    }
    assert ms[..|ms|] == ms;
  }

  /** The plain key is none of the mapped keys, so the writes for it never clash with theirs. */
  lemma PlainIsNew()
    ensures forall i :: 0 <= i < |COLOR_MAPPINGS| ==> COLOR_MAPPINGS[i].0 != PLAIN
  {
    forall i | 0 <= i < |COLOR_MAPPINGS| ensures COLOR_MAPPINGS[i].0 != PLAIN {
      assert |COLOR_MAPPINGS[i].0| != |PLAIN|;
    }
  }

  /** What `main` writes out: the `PlistRoot`. */
  datatype PlistRoot = PlistRoot(
    version: int,
    background: Rgba,
    selection: Rgba,
    lineHighlight: Rgba,
    insertionPoint: Rgba,
    syntaxColors: map<string, Rgba>,
    syntaxFonts: map<string, string>,
    themeName: string)

  /** The converter's outcome: the plist, or the `InvalidData` error it stops with. */
  datatype Outcome = Converted(root: PlistRoot) | InvalidData(message: string)

  /** `get_color`: the parsed colour under a key of `colors`. */
  function ColorOf(colors: Entries, key: string): Option<Rgba>
  {
    match Get(colors, key)
    case Some(Str(s)) => ParseHexRgbaU8(s)
    case _ => None
  }

  predicate HasName(theme: Value)
  {
    Lookup(theme, "name").Some? && Lookup(theme, "name").value.Str?
  }

  predicate HasColors(theme: Value)
  {
    Lookup(theme, "colors").Some? && Lookup(theme, "colors").value.Table?
  }

  predicate HasTokens(theme: Value)
  {
    Lookup(theme, "tokenColors").Some? && Lookup(theme, "tokenColors").value.Arr?
  }

  /** The colours `main` requires, in the order it reads them: the plain one, then the four editor ones. */
  const REQUIRED_COLORS: seq<string> := ["editor.foreground", "editor.background", "editor.selectionBackground",
                                         "editor.selectionHighlightBackground", "editorCursor.foreground"]

  /** The first key of the list whose colour is missing or does not parse. */
  function FirstMissing(colors: Entries, keys: seq<string>): (r: Option<string>)
    ensures r.None? <==> forall i :: 0 <= i < |keys| ==> ColorOf(colors, keys[i]).Some?
    ensures r.Some? ==> exists i :: (0 <= i < |keys| && keys[i] == r.value && ColorOf(colors, keys[i]).None?
      && forall j :: 0 <= j < i ==> ColorOf(colors, keys[j]).Some?)
  {
    if keys == [] then None
    else if ColorOf(colors, keys[0]).None? then Some(keys[0])
    else
      var r := FirstMissing(colors, keys[1..]);
      assert forall i :: 0 < i < |keys| ==> keys[1..][i - 1] == keys[i];
      if r.Some? then
        var i :| 0 <= i < |keys[1..]| && keys[1..][i] == r.value && ColorOf(colors, keys[1..][i]).None?
          && forall j :: 0 <= j < i ==> ColorOf(colors, keys[1..][j]).Some?;
        assert keys[i + 1] == r.value;
        r
      else r
  }

  /** Checking the first key of a list, then the rest. */
  lemma FirstMissingStep(colors: Entries, keys: seq<string>, i: nat)
    requires i < |keys|
    ensures FirstMissing(colors, keys[i..]) ==
      if ColorOf(colors, keys[i]).None? then Some(keys[i]) else FirstMissing(colors, keys[i + 1..])
  {
    assert keys[i..][0] == keys[i] && keys[i..][1..] == keys[i + 1..];
  }

  /** The two syntax maps of `main`, with the plain key added to each. */
  method SyntaxTables(ts: seq<TokenData>, plain: Rgba) returns (colors: map<string, Rgba>, fonts: map<string, string>)
    ensures colors == Collect(COLOR_MAPPINGS, ColorOfMapping(ts))[PLAIN := plain]
    ensures fonts == Collect(COLOR_MAPPINGS, FontOfMapping(ts))[PLAIN := Font(false, false, false)]
  {
    colors := SyntaxColors(ts, COLOR_MAPPINGS);
    colors := colors[PLAIN := plain];
    fonts := SyntaxFonts(ts, COLOR_MAPPINGS);
    PlainIsNew();
    CollectGet(COLOR_MAPPINGS, FontOfMapping(ts), PLAIN);
    if PLAIN !in fonts {
      fonts := fonts[PLAIN := FONTS[0][0][0]];
    }
  }

  /**
   * `main` on a parsed document. The checks come in this order: the name,
   * the `colors` table, the `tokenColors` array, then the required colours;
   * the first that fails decides the error.
   */
  method Convert(theme: Value) returns (r: Outcome)
    ensures !HasName(theme) ==> r == InvalidData("Missing name")
    ensures HasName(theme) && !HasColors(theme) ==> r == InvalidData("Missing colors")
    ensures HasName(theme) && HasColors(theme) && !HasTokens(theme) ==> r == InvalidData("Missing tokenColors")
    ensures HasName(theme) && HasColors(theme) && HasTokens(theme) ==>
      var missing := FirstMissing(Lookup(theme, "colors").value.entries, REQUIRED_COLORS);
      (missing.Some? ==> r == InvalidData("Invalid color: " + missing.value)) && (missing.None? ==> r.Converted?)
    ensures r.Converted? ==> (HasName(theme) && HasColors(theme) && HasTokens(theme)
      && FirstMissing(Lookup(theme, "colors").value.entries, REQUIRED_COLORS).None?)
    ensures r.Converted? ==>
      var colors := Lookup(theme, "colors").value.entries;
      var ts := Tokens(Lookup(theme, "tokenColors").value.items);
      r.root == PlistRoot(1,
        ColorOf(colors, REQUIRED_COLORS[1]).value, ColorOf(colors, REQUIRED_COLORS[2]).value,
        ColorOf(colors, REQUIRED_COLORS[3]).value, ColorOf(colors, REQUIRED_COLORS[4]).value,
        Collect(COLOR_MAPPINGS, ColorOfMapping(ts))[PLAIN := ColorOf(colors, REQUIRED_COLORS[0]).value],
        Collect(COLOR_MAPPINGS, FontOfMapping(ts))[PLAIN := Font(false, false, false)],
        Lookup(theme, "name").value.s)
  {
    if !HasName(theme) { return InvalidData("Missing name"); }
    var name := Lookup(theme, "name").value.s;
    if !HasColors(theme) { return InvalidData("Missing colors"); }
    var colors := Lookup(theme, "colors").value.entries;
    if !HasTokens(theme) { return InvalidData("Missing tokenColors"); }
    var ts := Tokens(Lookup(theme, "tokenColors").value.items);
    var keys := REQUIRED_COLORS;
    assert keys[0..] == keys;
    FirstMissingStep(colors, keys, 0);
    var plain := ColorOf(colors, keys[0]);
    if plain.None? { return InvalidData("Invalid color: " + keys[0]); }
    var syntaxColors, syntaxFonts := SyntaxTables(ts, plain.value);
    var editor := EditorColors(colors);
    match editor
    case Missing(key) => r := InvalidData("Invalid color: " + key);
    case Found(background, selection, highlight, cursor) =>
      r := Converted(PlistRoot(1, background, selection, highlight, cursor, syntaxColors, syntaxFonts, name));
  }

  /** The outcome of the four `get_color` calls of the root: the first key that fails, or the four colours. */
  datatype EditorOutcome = Missing(key: string) | Found(background: Rgba, selection: Rgba, highlight: Rgba, cursor: Rgba)

  /**
   * The `get_color` calls for the background, the selection, the current
   * line highlight and the cursor, in that order; the first that fails
   * decides the error.
   */
  method EditorColors(colors: Entries) returns (e: EditorOutcome)
    ensures e.Missing? <==> FirstMissing(colors, REQUIRED_COLORS[1..]).Some?
    ensures e.Missing? ==> e.key == FirstMissing(colors, REQUIRED_COLORS[1..]).value
    ensures e.Found? ==> (e.background == ColorOf(colors, REQUIRED_COLORS[1]).value
      && e.selection == ColorOf(colors, REQUIRED_COLORS[2]).value
      && e.highlight == ColorOf(colors, REQUIRED_COLORS[3]).value
      && e.cursor == ColorOf(colors, REQUIRED_COLORS[4]).value)
  {
    var keys := REQUIRED_COLORS;
    FirstMissingStep(colors, keys, 1);
    var background := ColorOf(colors, keys[1]);
    if background.None? { return Missing(keys[1]); }
    FirstMissingStep(colors, keys, 2);
    var selection := ColorOf(colors, keys[2]);
    if selection.None? { return Missing(keys[2]); }
    FirstMissingStep(colors, keys, 3);
    var highlight := ColorOf(colors, keys[3]);
    if highlight.None? { return Missing(keys[3]); }
    FirstMissingStep(colors, keys, 4);
    var cursor := ColorOf(colors, keys[4]);
    if cursor.None? { return Missing(keys[4]); }
    assert keys[5..] == [];
    e := Found(background.value, selection.value, highlight.value, cursor.value);
  }

  /**
   * In a converted theme the plain key has the editor foreground and the
   * regular monospaced font; every mapped key has a font, the one its last
   * mapping asks for; and a key other than the plain one has a colour
   * exactly when one of its mappings yields one.
   */
  lemma ConvertedTables(ts: seq<TokenData>, fg: Rgba, k: string)
    ensures var colors := Collect(COLOR_MAPPINGS, ColorOfMapping(ts))[PLAIN := fg];
      var fonts := Collect(COLOR_MAPPINGS, FontOfMapping(ts))[PLAIN := Font(false, false, false)];
      && colors[PLAIN] == fg && fonts[PLAIN] == "SFMono-Regular - 14.0"
      && (k != PLAIN ==> (k in colors <==> exists i :: 0 <= i < |COLOR_MAPPINGS| && COLOR_MAPPINGS[i].0 == k
                                                       && ColorFor(ts, COLOR_MAPPINGS[i].1).Some?))
      && (k in fonts <==> k == PLAIN || exists i :: 0 <= i < |COLOR_MAPPINGS| && COLOR_MAPPINGS[i].0 == k)
      && (k != PLAIN && k in fonts ==> exists i :: (0 <= i < |COLOR_MAPPINGS| && COLOR_MAPPINGS[i].0 == k
            && fonts[k] == FontFor(k, StyleFor(ts, COLOR_MAPPINGS[i].1))))
  {
    ColorsTable(ts, fg, k);
    FontsTable(ts, k);
  }

  lemma ColorsTable(ts: seq<TokenData>, fg: Rgba, k: string)
    ensures var colors := Collect(COLOR_MAPPINGS, ColorOfMapping(ts))[PLAIN := fg];
      && colors[PLAIN] == fg
      && (k != PLAIN ==> (k in colors <==> exists i :: 0 <= i < |COLOR_MAPPINGS| && COLOR_MAPPINGS[i].0 == k
                                                       && ColorFor(ts, COLOR_MAPPINGS[i].1).Some?))
  {
    CollectGet(COLOR_MAPPINGS, ColorOfMapping(ts), k);
  }

  lemma FontsTable(ts: seq<TokenData>, k: string)
    ensures var fonts := Collect(COLOR_MAPPINGS, FontOfMapping(ts))[PLAIN := Font(false, false, false)];
      && fonts[PLAIN] == "SFMono-Regular - 14.0"
      && (k in fonts <==> k == PLAIN || exists i :: 0 <= i < |COLOR_MAPPINGS| && COLOR_MAPPINGS[i].0 == k)
      && (k != PLAIN && k in fonts ==> exists i :: (0 <= i < |COLOR_MAPPINGS| && COLOR_MAPPINGS[i].0 == k
            && fonts[k] == FontFor(k, StyleFor(ts, COLOR_MAPPINGS[i].1))))
  {
    CollectGet(COLOR_MAPPINGS, FontOfMapping(ts), k);
  }
}
