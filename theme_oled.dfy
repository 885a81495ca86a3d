/**
 * The OLED pass of the theme compiler: seven substring rules, applied in
 * table order to every string of the `colors` table, each replacing only the
 * first occurrence of its pattern.
 */
module ThemeOled {
  import opened Wrappers
  import opened Text
  import opened Toml

  type Rule = (string, string)

  /** `OLED_REPLACEMENTS`: pattern and replacement, in the order they are tried. */
  const OLED_REPLACEMENTS: seq<Rule> := [
    ("#161616", "#000000"),
    ("#1b1b1b", "#0b0b0b"),
    ("#1e1e1e", "#0b0b0b"),
    ("#212121", "#0f0f0f"),
    ("#262626", "#161616"),
    ("#393939", "#262626"),
    ("#525252", "#393939")
  ]

  /**
   * `s.find(from)` followed by `replace_range`: the first occurrence of
   * `from` is replaced by `to`; without one the string is unchanged.
   */
  function ReplaceFirst(s: string, from: string, to: string): (r: string)
    ensures Find(s, from).None? ==> r == s
    ensures Find(s, from).Some? ==> var p := Find(s, from).value;
      && |r| == |s| - |from| + |to|
      && r[..p] == s[..p] && r[p..p + |to|] == to && r[p + |to|..] == s[p + |from|..]
  {
    match Find(s, from)
    case None => s
    case Some(p) => s[..p] + to + s[p + |from|..]
  }

  /** The rules applied one after another, each to the result of the one before. */
  function ApplyRules(s: string, rules: seq<Rule>): string
    decreases |rules|
  {
    if rules == [] then s else ApplyRules(ReplaceFirst(s, rules[0].0, rules[0].1), rules[1..])
  }

  /** The closure of `apply_replacements_in_table`: the loop over the rules. */
  method ReplaceAll(s: string, rules: seq<Rule>) returns (r: string)
    ensures r == ApplyRules(s, rules)
  {
    r := s;
    for i := 0 to |rules|
      invariant ApplyRules(r, rules[i..]) == ApplyRules(s, rules)
    {
      assert rules[i..][0] == rules[i] && rules[i..][1..] == rules[i + 1..];
      var from, to := rules[i].0, rules[i].1;
      var pos := Find(r, from);
      ghost var next := ReplaceFirst(r, from, to);
      if pos.Some? {
        r := r[..pos.value] + to + r[pos.value + |from|..];
      }
      assert r == next;
    }
    assert rules[|rules|..] == [];
  }

  /** A string in which no pattern occurs comes through unchanged. */
  lemma {:induction false} NoPatternUnchanged(s: string, rules: seq<Rule>)
    requires forall k :: 0 <= k < |rules| ==> !Contains(s, rules[k].0)
    ensures ApplyRules(s, rules) == s
  {
    if rules != [] {
      NoPatternUnchanged(s, rules[1..]);
    }
  }

  /** Between strings of one length, the only occurrence is the whole string. */
  lemma FindSameLength(s: string, pat: string)
    requires |s| == |pat| > 0
    ensures Find(s, pat) == if s == pat then Some(0) else None
  {
    assert s[0..|pat|] == s;
    if s != pat {
      assert !OccursAt(s, pat, 0);
      forall j | 0 < j ensures !OccursAt(s, pat, j) { }
    }
  }

  /**
   * A string that is exactly the pattern of rule `k`, when no earlier rule
   * has that pattern and no later rule's pattern is rule `k`'s replacement,
   * is rewritten once, to that replacement.
   */
  lemma {:induction false} WholeStringRule(s: string, rules: seq<Rule>, k: nat)
    requires k < |rules| && s == rules[k].0
    requires forall j :: 0 <= j < |rules| ==> |rules[j].0| == |s| && |rules[j].1| == |s|
    requires |s| > 0
    requires forall j :: 0 <= j < k ==> rules[j].0 != s
    requires forall j :: k < j < |rules| ==> rules[j].0 != rules[k].1
    ensures ApplyRules(s, rules) == rules[k].1
  {
    FindSameLength(s, rules[0].0);
    if k == 0 {
      assert ReplaceFirst(s, rules[0].0, rules[0].1) == rules[0].1;
      AllMiss(rules[0].1, rules[1..]);
    } else {
      WholeStringRule(s, rules[1..], k - 1);
    }
  }

  /** A string unlike every pattern of the same length is not rewritten. */
  lemma {:induction false} AllMiss(s: string, rules: seq<Rule>)
    requires |s| > 0
    requires forall j :: 0 <= j < |rules| ==> |rules[j].0| == |s| && rules[j].0 != s
    ensures ApplyRules(s, rules) == s
  {
    if rules != [] {
      FindSameLength(s, rules[0].0);
      AllMiss(s, rules[1..]);
    }
  }

  /**
   * On the seven colours it names, the OLED table rewrites each exactly
   * once: `#393939` becomes `#262626` and is not rewritten again by the
   * `#262626` rule, which comes earlier.
   */
  lemma OledOnColours()
    ensures forall k :: 0 <= k < |OLED_REPLACEMENTS| ==>
      ApplyRules(OLED_REPLACEMENTS[k].0, OLED_REPLACEMENTS) == OLED_REPLACEMENTS[k].1
  {
    var rules := OLED_REPLACEMENTS;
    forall k | 0 <= k < |rules|
      ensures ApplyRules(rules[k].0, rules) == rules[k].1
    {
      WholeStringRule(rules[k].0, rules, k);
    }
  }

  /** The string function the pass applies. */
  function OledString(s: string): string
  {
    ApplyRules(s, OLED_REPLACEMENTS)
  }

  /** `colors_table_mut`: the `colors` table of the document, if there is one. */
  function ColorsTable(root: Value): (t: Option<Entries>)
    ensures t.Some? <==> Lookup(root, "colors").Some? && Lookup(root, "colors").value.Table?
  {
    match Lookup(root, "colors")
    case Some(Table(es)) => Some(es)
    case _ => None
  }

  /** `apply_replacements_in_table(colors, &OLED_REPLACEMENTS)` on the document. */
  function OledPass(root: Value): (r: Value)
    ensures root.Table? <==> r.Table?
  {
    match ColorsTable(root)
    case None => root
    case Some(es) => Put(root, "colors", Table(MapEntries(es, OledString)))
  }

  /**
   * The pass rewrites the strings of the `colors` table, each by the rules,
   * keeps that table's shape, and leaves every other entry of the document
   * as it was; a document without a `colors` table is unchanged.
   */
  lemma OledPassEffect(root: Value)
    ensures ColorsTable(root).None? ==> OledPass(root) == root
    ensures ColorsTable(root).Some? ==>
      && ColorsTable(OledPass(root)).Some?
      && Shape(Table(ColorsTable(OledPass(root)).value)) == Shape(Table(ColorsTable(root).value))
      && Strings(Table(ColorsTable(OledPass(root)).value)) == MapSeq(OledString, Strings(Table(ColorsTable(root).value)))
    ensures forall k :: k != "colors" ==> Lookup(OledPass(root), k) == Lookup(root, k)
  {
    if ColorsTable(root).Some? {
      var es := ColorsTable(root).value;
      var t := MapEntries(es, OledString);
      InsertGet(root.entries, "colors", Table(t), "colors");
      forall k | k != "colors" ensures Lookup(OledPass(root), k) == Lookup(root, k) {
        InsertGet(root.entries, "colors", Table(t), k);
      }
      MapStringsWalk(Table(es), OledString);
    }
  }
}
