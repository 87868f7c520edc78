/** The rest of the package contract: names, sensors, prompts and configuration. */
module SkillPackage {
  import opened Wrappers
  import opened Json
  import opened SkillValidation

  // ---------- sensors ----------

  function SensorType(j: Json): Option<string> {
    Identifier(Field(j, "type"))
  }

  /** An absent or null field, or an identifier. */
  predicate IdentifierOrNull(v: Option<Json>) {
    v.None? || v.value.Null? || Identifier(v).Some?
  }

  predicate SensorOk(j: Json) {
    j.Dict? && SensorType(j).Some? && IdentifierOrNull(Field(j, "protocol"))
  }

  ghost predicate AllSensorsOk(items: seq<Json>) {
    forall i | 0 <= i < |items| :: SensorOk(items[i])
  }

  function TypesOf(items: seq<Json>): (r: seq<Option<string>>)
    ensures |r| == |items| && forall i | 0 <= i < |r| :: r[i] == SensorType(items[i])
  {
    seq(|items|, i requires 0 <= i < |items| => SensorType(items[i]))
  }

  /** The rules on the list of sensors; a missing list is an empty one. */
  ghost predicate SensorsOk(v: Option<Json>) {
    v.None? || (v.value.List? && AllSensorsOk(v.value.items) && Distinct(TypesOf(v.value.items)))
  }

  lemma SensorsPrefix(items: seq<Json>, n: nat)
    requires n < |items| && AllSensorsOk(items[..n]) && SensorOk(items[n])
    ensures AllSensorsOk(items[..n + 1])
  {
    assert items[..n + 1] == items[..n] + [items[n]];
  }

  lemma TypesPrefix(items: seq<Json>, n: nat)
    requires n < |items|
    ensures TypesOf(items[..n + 1]) == TypesOf(items[..n]) + [SensorType(items[n])]
    ensures Distinct(TypesOf(items)) ==> Distinct(TypesOf(items[..n + 1]))
  {
    assert TypesOf(items[..n + 1]) == TypesOf(items)[..n + 1];
  }

  method ParseSensors(v: Option<Json>) returns (ok: bool)
    ensures ok <==> SensorsOk(v)
  {
    if v.None? { return true; }
    if !v.value.List? { return false; }
    var items := v.value.items;
    var seen: set<string> := {};
    for n := 0 to |items|
      invariant AllSensorsOk(items[..n]) && Distinct(TypesOf(items[..n]))
      invariant forall t :: t in seen <==> Some(t) in TypesOf(items[..n])
    {
      TypesPrefix(items, n);
      var kind := SensorType(items[n]);
      if !SensorOk(items[n]) { return false; }
      SensorsPrefix(items, n);
      DistinctAppend(TypesOf(items[..n]), kind);
      if kind.value in seen { return false; }
      seen := seen + {kind.value};
    }
    assert items[..|items|] == items;
    ok := true;
  }

  // ---------- prompts ----------

  const OPENING: string := "{history."

  const MAX_PLACEHOLDERS: nat := 16

  predicate Brace(c: char) {
    c == '{' || c == '}'
  }

  /** How many characters come before the first brace. */
  function BraceFree(s: string): (n: nat)
    ensures n <= |s| && (forall i | 0 <= i < n :: !Brace(s[i])) && (n < |s| ==> Brace(s[n]))
  {
    if s == "" || Brace(s[0]) then 0 else 1 + BraceFree(s[1..])
  }

  /** The length of a placeholder at the start of the text, or nothing. */
  function PlaceholderLength(s: string): (n: nat)
    ensures n <= |s|
  {
    if !(OPENING <= s) then 0
    else
      var n := BraceFree(s[|OPENING|..]);
      if n > 0 && |OPENING| + n < |s| && s[|OPENING| + n] == '}' then |OPENING| + n + 1 else 0
  }

  /** Placeholders found one after the other, each search starting after the one before. */
  function Found(s: string): nat {
    if s == "" then 0
    else if PlaceholderLength(s) > 0 then 1 + Found(s[PlaceholderLength(s)..])
    else Found(s[1..])
  }

  /** The places at which a placeholder starts. */
  function Starts(s: string): nat {
    if s == "" then 0 else (if PlaceholderLength(s) > 0 then 1 else 0) + Starts(s[1..])
  }

  /** No placeholder starts within a stretch without opening braces. */
  lemma {:induction false} StartsSkip(s: string, n: nat)
    requires n <= |s| && forall i | 0 <= i < n :: s[i] != '{'
    ensures Starts(s) == Starts(s[n..])
  {
    if n > 0 {
      assert OPENING[0] == '{';
      StartsSkip(s[1..], n - 1);
      assert s[1..][n - 1..] == s[n..];
    } else {
      assert s[n..] == s;
    }
  }

  /** A placeholder has one opening brace, at its start. */
  lemma PlaceholderInside(s: string)
    requires PlaceholderLength(s) > 0
    ensures forall i | 1 <= i < PlaceholderLength(s) :: s[i] != '{'
  {
    var rest := s[|OPENING|..];
    forall i | 1 <= i < PlaceholderLength(s)
      ensures s[i] != '{'
    {
      if i < |OPENING| {
        assert s[i] == OPENING[i];
      } else if i < PlaceholderLength(s) - 1 {
        assert s[i] == rest[i - |OPENING|];
      }
    }
  }

  /** Placeholders cannot overlap, so the search finds every one. */
  lemma {:induction false} SearchFindsAll(s: string)
    ensures Found(s) == Starts(s)
    decreases |s|
  {
    if s != "" {
      var n := PlaceholderLength(s);
      if n > 0 {
        PlaceholderInside(s);
        StartsSkip(s[1..], n - 1);
        assert s[1..][n - 1..] == s[n..];
        SearchFindsAll(s[n..]);
      } else {
        SearchFindsAll(s[1..]);
      }
    }
  }

  predicate PromptOk(j: Json) {
    j.Str? && Starts(j.s) <= MAX_PLACEHOLDERS
  }

  /** The rules on the prompts; missing prompts are an empty mapping. */
  predicate PromptsOk(v: Option<Json>) {
    v.None? || (v.value.Dict? && forall i | 0 <= i < |v.value.entries| :: PromptOk(v.value.entries[i].1))
  }

  method ParsePrompts(v: Option<Json>) returns (ok: bool)
    ensures ok <==> PromptsOk(v)
  {
    if v.None? { return true; }
    if !v.value.Dict? { return false; }
    var entries := v.value.entries;
    for n := 0 to |entries|
      invariant forall i | 0 <= i < n :: PromptOk(entries[i].1)
    {
      var prompt := entries[n].1;
      if !prompt.Str? { return false; }
      SearchFindsAll(prompt.s);
      if Found(prompt.s) > MAX_PLACEHOLDERS { return false; }
    }
    ok := true;
  }

  // ---------- names and configuration ----------

  predicate HeaderOk(root: Json) {
    && Identifier(Field(root, "name")).Some? && Identifier(Field(root, "version")).Some? &&
          Identifier(Field(root, "author")).Some?
    && IdentifierOrNull(Field(root, "signature"))
  }

  predicate ConfigOk(v: Option<Json>) {
    v.None? || v.value.Dict?
  }

  /** Everything but the triggers and actions. */
  ghost predicate RestOk(root: Json) {
    && HeaderOk(root) && SensorsOk(Field(root, "sensors_required")) && PromptsOk(Field(root, "prompts"))
    && ConfigOk(Field(root, "config"))
  }
}
