/**
  Marker style resolution inside the overlay's draw callback
  (src/utils/map.js:143-158, 267-284, 287-300): the colour key of a work type,
  the choice of SVG template, and the substitution of the colour and
  multiple-work-type placeholders. The templates and colour table come from an
  icon module that is not part of this model; they are parameters here.
*/
module MarkerStyle {
  import opened Wrappers
  import JsString

  /** A work type of a worksite: its type name, its status, and the id of the
      organisation that claimed it (`null` when unclaimed). */
  datatype WorkType = WorkType(workType: string, status: string, claimedBy: Option<int>)

  /** JavaScript truthiness of `claimed_by`: an absent id and the id 0 are falsy. */
  predicate IsClaimed(w: WorkType) {
    w.claimedBy.Some? && w.claimedBy.value != 0
  }

  /** `${status}_${claimed_by ? 'claimed' : 'unclaimed'}`: the status, then the claim flag
      as a suffix. */
  function ColorsKey(w: WorkType): (key: string)
    ensures w.status < key
    ensures |key| == |w.status| + (if IsClaimed(w) then |"_claimed"| else |"_unclaimed"|)
  {
    w.status + (if IsClaimed(w) then "_claimed" else "_unclaimed")
  }

  /** Two work types share a colour key exactly when they share the status and the
      claimed flag: the key loses nothing else and confuses nothing. */
  lemma ColorsKeyInjective(a: WorkType, b: WorkType)
    ensures ColorsKey(a) == ColorsKey(b) <==> a.status == b.status && IsClaimed(a) == IsClaimed(b)
  {
    var ka, kb := ColorsKey(a), ColorsKey(b);
    if ka == kb && IsClaimed(a) == IsClaimed(b) {
      assert a.status == ka[..|a.status|] == kb[..|b.status|] == b.status;
    }
    // Eight characters from the end, "_claimed" has '_' where "_unclaimed" has 'n'.
    assert IsClaimed(a) ==> ka[|ka| - 8] == '_';
    assert !IsClaimed(a) ==> ka[|ka| - 8] == 'n';
    assert IsClaimed(b) ==> kb[|kb| - 8] == '_';
    assert !IsClaimed(b) ==> kb[|kb| - 8] == 'n';
  }

  /** The key names the colour-table entry: the status followed by exactly `_claimed` or
      `_unclaimed`. */
  lemma ColorsKeySuffix(w: WorkType)
    ensures ColorsKey(w) == w.status + (if IsClaimed(w) then "_claimed" else "_unclaimed")
    ensures ColorsKey(w)[|w.status|..] == if IsClaimed(w) then "_claimed" else "_unclaimed"
  {
    var suffix := if IsClaimed(w) then "_claimed" else "_unclaimed";
    assert (w.status + suffix)[|w.status|..] == suffix;
  }

  /** An entry of the colour table. */
  datatype Colors = Colors(fillColor: string, strokeColor: string)

  const FillPlaceholder: string := "{{fillColor}}"
  const StrokePlaceholder: string := "{{strokeColor}}"
  /** The badge placeholder the redraw path substitutes. */
  const MultiplePlaceholder: string := "{{multiple}}"
  /** The badge placeholder the first-draw path substitutes, spelt as in the source. */
  const FirstDrawMultiplePlaceholder: string := "{{multple}}"

  /** The icon module defines these templates; `templates.circle.replace(...)` would
      throw without them. */
  predicate HasStandardTemplates(templates: map<string, string>) {
    "circle" in templates && "unknown" in templates && "plus" in templates
  }

  /** `templates[workType] || templates.unknown`: a missing or empty template falls back. */
  function TypeTemplate(templates: map<string, string>, workType: string): (r: string)
    requires "unknown" in templates
    ensures r == templates["unknown"] || (workType in templates && r == templates[workType])
    ensures workType !in templates ==> r == templates["unknown"]
    ensures workType in templates && templates[workType] != "" ==> r == templates[workType]
    ensures r == "" ==> templates["unknown"] == ""
  {
    if workType in templates && templates[workType] != "" then templates[workType]
    else templates["unknown"]
  }

  /** The template with its fill and stroke colours substituted. */
  function Colored(template: string, c: Colors): string {
    JsString.ReplaceFirst(JsString.ReplaceFirst(template, FillPlaceholder, c.fillColor),
                          StrokePlaceholder, c.strokeColor)
  }

  /** The three chained `replace` calls: colours, then the badge placeholder, replaced by
      `templates.plus` when the worksite has more than one work type and by "" otherwise. */
  function Svg(template: string, c: Colors, plus: string, multi: bool, badge: string): string {
    JsString.ReplaceFirst(Colored(template, c), badge, if multi then plus else "")
  }

  /** The `if (spriteColors)` guard: with a colour entry for the key the texture becomes
      the substituted template; without one the texture is left as it was. */
  function Restyle(texture: Option<string>, colors: map<string, Colors>, key: string,
                   template: string, plus: string, multi: bool, badge: string): (r: Option<string>)
    ensures key !in colors ==> r == texture
    // With a colour entry the old texture is never read: it becomes the substituted markup.
    ensures key in colors ==> r == Some(Svg(template, colors[key], plus, multi, badge))
  {
    if key in colors then Some(Svg(template, colors[key], plus, multi, badge)) else texture
  }

  /** The badge is inserted exactly for multi-type worksites: when the coloured template
      holds the placeholder, the multi-type markup is the single-type markup with
      `templates.plus` inserted where the placeholder was. */
  lemma BadgeInsertedIffMultiple(template: string, c: Colors, plus: string, badge: string, k: int)
    requires JsString.IsFirstOccurrence(Colored(template, c), badge, k)
    requires JsString.NoDollar(plus)
    ensures Svg(template, c, plus, false, badge)
            == Colored(template, c)[..k] + Colored(template, c)[k + |badge|..]
    ensures Svg(template, c, plus, true, badge)
            == Colored(template, c)[..k] + plus + Colored(template, c)[k + |badge|..]
  {
    var t := Colored(template, c);
    JsString.ReplaceFirstPlain(t, badge, "", k);
    JsString.ReplaceFirstPlain(t, badge, plus, k);
    assert t[..k] + "" == t[..k];
  }

  /** When the coloured template lacks the placeholder, the badge is never inserted:
      single- and multi-type worksites get the same markup, the coloured template itself.
      This is what the first draw's misspelt `{{multple}}` does to a template that only
      holds `{{multiple}}`, which then stays in the markup unreplaced. */
  lemma BadgeLostWithoutPlaceholder(template: string, c: Colors, plus: string, badge: string)
    requires forall j :: !JsString.OccursAt(Colored(template, c), badge, j)
    ensures Svg(template, c, plus, true, badge) == Colored(template, c)
    ensures Svg(template, c, plus, false, badge) == Colored(template, c)
  {
  }
}
