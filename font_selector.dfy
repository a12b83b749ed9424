// The font family and weight pickers (components/FontSelector.tsx): a new
// family takes the variant whose weight is nearest the current one.
module FontSelector {
  import opened Wrappers
  import opened Strings
  import opened Types
  import opened TextSpans

  /** `Math.abs` on weights. */
  function Distance(x: int): nat { if x < 0 then -x else x }

  /** `fonts.find(f => f.name === name)` */
  function FindFamily(fonts: seq<FontFamily>, name: string): (r: Option<FontFamily>)
    ensures r.Some? ==> r.value in fonts && r.value.name == name
    ensures r.None? <==> forall f :: f in fonts ==> f.name != name
  {
    if fonts == [] then None
    else if fonts[0].name == name then Some(fonts[0])
    else
      assert forall f :: f in fonts <==> f == fonts[0] || f in fonts[1..];
      FindFamily(fonts[1..], name)
  }

  /** `fontWeight || 400` */
  function ReferenceWeight(fontWeight: int): int {
    if fontWeight == 0 then 400 else fontWeight
  }

  /** Variant `p` is nearest `reference` in weight, and no earlier variant
    * is as near. */
  predicate IsNearest(variants: seq<FontVariant>, reference: int, p: int) {
    0 <= p < |variants| &&
    (forall q :: 0 <= q < |variants| ==> Distance(variants[p].weight - reference) <= Distance(variants[q].weight - reference)) &&
    (forall q :: 0 <= q < p ==> Distance(variants[q].weight - reference) > Distance(variants[p].weight - reference))
  }

  /** Ties go to the earliest variant, so there is one nearest variant. */
  lemma NearestUnique(variants: seq<FontVariant>, reference: int, p: int, p': int)
    requires IsNearest(variants, reference, p) && IsNearest(variants, reference, p')
    ensures p == p'
  {
    var a, b := variants[p], variants[p'];
    assert Distance(a.weight - reference) == Distance(b.weight - reference);
  }

  /** The loop over the variants: the first variant whose weight is nearest
    * `reference`; later variants replace it only when strictly nearer. */
  method NearestVariant(variants: seq<FontVariant>, reference: int) returns (best: FontVariant)
    requires |variants| > 0
    ensures exists p :: IsNearest(variants, reference, p) && variants[p] == best
  {
    best := variants[0];
    var minDiff := Distance(best.weight - reference);
    ghost var p := 0;
    for i := 1 to |variants|
      invariant 0 <= p < i && variants[p] == best && minDiff == Distance(best.weight - reference)
      invariant forall q :: 0 <= q < p ==> Distance(variants[q].weight - reference) > minDiff
      invariant forall q :: 0 <= q < i ==> minDiff <= Distance(variants[q].weight - reference)
    {
      var diff := Distance(variants[i].weight - reference);
      if diff < minDiff {
        minDiff := diff;
        best := variants[i];
        p := i;
      }
    }
    assert IsNearest(variants, reference, p);
  }

  /** The style update a picker sends: only the fields it names. */
  function WeightPatch(family: Patch<string>, weight: int): StylePatch {
    KeepAll.(fontFamily := family, fontWeight := Put(weight))
  }

  /** `handleFamilyChange`: nothing for an unknown family or one without
    * variants; otherwise the family and the nearest variant's weight. */
  method HandleFamilyChange(fonts: seq<FontFamily>, fontWeight: int, newFamilyName: string)
    returns (update: Option<StylePatch>)
    ensures var f := FindFamily(fonts, newFamilyName);
      update.None? <==> f.None? || |f.value.variants| == 0
    ensures update.Some? ==>
      var vs := FindFamily(fonts, newFamilyName).value.variants;
      (exists p :: IsNearest(vs, ReferenceWeight(fontWeight), p) &&
        update.value == WeightPatch(Put(newFamilyName), vs[p].weight))
  {
    var newFamily := FindFamily(fonts, newFamilyName);
    if newFamily.Some? && |newFamily.value.variants| > 0 {
      var vs := newFamily.value.variants;
      var best := NearestVariant(vs, ReferenceWeight(fontWeight));
      ghost var p :| IsNearest(vs, ReferenceWeight(fontWeight), p) && vs[p] == best;
      update := Some(WeightPatch(Put(newFamilyName), best.weight));
      assert update.value == WeightPatch(Put(newFamilyName), vs[p].weight);
    } else {
      update := None;
    }
  }

  /** `handleVariantChange`: only the weight, written as the option's value. */
  function VariantChange(value: string): (update: StylePatch)
    requires |value| >= 1 && AllDigits(value)
    ensures update.fontWeight == Put(ParseDigits(value))
    ensures update.(fontWeight := Keep) == KeepAll
  {
    WeightPatch(Keep, ParseDigits(value))
  }

  /** Choosing the option written for a variant's weight sets that weight. */
  lemma VariantChangeSetsWeight(weight: nat)
    ensures VariantChange(NatToString(weight)).fontWeight == Put(weight)
  {
    ParseNatToString(weight);
  }
}
