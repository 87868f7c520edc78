/** The review gate: which packages are listed at once. */
module Review {
  import opened Wrappers
  import opened Json
  import opened SkillValidation
  import opened SkillActions
  import opened PackageRules

  datatype Decision = ListNow | ReviewFirst

  /** Rejects every document that does not conform, and sends to review exactly those in which Tier C or D stands. */
  method PublishDecision(root: Json) returns (r: Result<Decision, Invalid>)
    ensures r.Ok? <==> Conforms(root)
    ensures r.Ok? ==> (r.value == ReviewFirst <==> DocumentSaysCd(root))
    ensures r == Ok(ListNow) ==> AllActSafely(ItemsOf(Field(root, "triggers")), Field(root, "actions"))
  {
    PackagesConformIff(root);
    var valid := Validate(root);
    if valid.Err? { return Err(Invalid); }
    DeclaresIffSays(root);
    if !DocumentSaysCd(root) {
      ListedDocumentsActSafely(root);
    }
    r := Ok(if DeclaresCd(valid.value.0, valid.value.1) then ReviewFirst else ListNow);
  }
}
