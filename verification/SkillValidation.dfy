/** The skill package contract: looped parsers of triggers and actions, the declarative rules they enforce, and what
    a package that is listed without a review can do. */
module SkillValidation {
  import opened Wrappers
  import opened Json

  datatype Tier = A | B | C | D

  datatype Trigger = Trigger(name: string, tier: Tier, approval: bool, postAction: bool, safeDefault: string)

  datatype Invalid = Invalid

  // ---------- fields ----------

  /** The characters that trimming removes. */
  predicate IsSpace(c: char) {
    || '\t' <= c <= '\r' || '\U{001C}' <= c <= ' ' || c == '\U{0085}' || c == '\U{00A0}' || c == '\U{1680}'
    || '\U{2000}' <= c <= '\U{200A}' || c == '\U{2028}' || c == '\U{2029}' || c == '\U{202F}' || c == '\U{205F}' ||
          c == '\U{3000}'
  }

  predicate Trimmed(s: string) {
    s == "" || (!IsSpace(s[0]) && !IsSpace(s[|s| - 1]))
  }

  predicate Alphanumeric(c: char) {
    'A' <= c <= 'Z' || 'a' <= c <= 'z' || '0' <= c <= '9'
  }

  predicate TriggerName(s: string) {
    s != "" && Alphanumeric(s[0]) && forall i | 0 <= i < |s| :: Alphanumeric(s[i]) || s[i] == '_' || s[i] == '-'
  }

  function Field(j: Json, key: string): Option<Json> {
    if j.Dict? then Find(j.entries, key) else None
  }

  function Identifier(v: Option<Json>): (r: Option<string>)
    ensures r.Some? ==> v == Some(Str(r.value)) && r.value != "" && Trimmed(r.value)
  {
    if v.Some? && v.value.Str? && v.value.s != "" && Trimmed(v.value.s) then Some(v.value.s) else None
  }

  function TierField(v: Option<Json>): Option<Tier> {
    if v == Some(Str("A")) then Some(A)
    else if v == Some(Str("B")) then Some(B)
    else if v == Some(Str("C")) then Some(C)
    else if v == Some(Str("D")) then Some(D) else None
  }

  function Flag(j: Json, key: string): Option<bool> {
    match Field(j, key)
    case None => Some(false)
    case Some(Bool(b)) => Some(b)
    case _ => None
  }

  predicate IntegerIfPresent(j: Json, key: string) {
    Field(j, key).None? || Field(j, key).value.Int?
  }

  // ---------- triggers: the rules ----------

  const LOG: string := "log_to_dashboard"

  function SafeDefault(j: Json): string {
    match Field(j, "safe_default_action")
    case Some(Str(s)) => s
    case _ => LOG
  }

  predicate EscalationOk(j: Json, tier: Tier) {
    match Field(j, "escalate_to")
    case None => true
    case Some(Str(s)) => s == "rule" || (tier != D && (s == "local_slm" || s == "gateway"))
    case _ => false
  }

  predicate PolicyOk(j: Json, tier: Tier) {
    match Field(j, "reasoning_policy")
    case None => true
    case Some(Null) => true
    case Some(Str(s)) => s == "post_action" && tier == B
    case _ => false
  }

  predicate NameOk(j: Json) {
    var name := Identifier(Field(j, "name")); name.Some? && TriggerName(name.value)
  }

  predicate TypesOk(j: Json) {
    && (Field(j, "condition").None? || Field(j, "condition").value.Str?)
    && IntegerIfPresent(j, "cooldown_seconds") && IntegerIfPresent(j, "approval_timeout_seconds")
    && Flag(j, "bypass_llm").Some? && Flag(j, "requires_approval").Some?
  }

  predicate SafeDefaultOk(j: Json, tier: Tier) {
    && (Field(j, "safe_default_action").None? || Field(j, "safe_default_action").value.Str?)
    && Trimmed(SafeDefault(j)) && (tier == C ==> SafeDefault(j) != "")
  }

  predicate AuthorityOk(j: Json, tier: Tier) {
    EscalationOk(j, tier) && (Flag(j, "bypass_llm") == Some(true) ==> tier == D) && PolicyOk(j, tier) &&
        SafeDefaultOk(j, tier)
  }

  /** The rules on one trigger. */
  predicate TriggerOk(j: Json) {
    var tier := TierField(Field(j, "action_tier"));
    j.Dict? && NameOk(j) && tier.Some? && TypesOk(j) && AuthorityOk(j, tier.value)
  }

  function TriggerOf(j: Json): Trigger
    requires TriggerOk(j)
  {
    Trigger(Identifier(Field(j, "name")).value, TierField(Field(j, "action_tier")).value,
        Flag(j, "requires_approval").value,
            PostAction(j), SafeDefault(j))
  }

  predicate DistinctNames(ts: seq<Trigger>) {
    forall i, j | 0 <= i < j < |ts| :: ts[i].name != ts[j].name
  }

  ghost predicate AllTriggersOk(items: seq<Json>) {
    forall i | 0 <= i < |items| :: TriggerOk(items[i])
  }

  function AllTriggers(items: seq<Json>): (r: seq<Trigger>)
    requires AllTriggersOk(items)
    ensures |r| == |items| && forall i | 0 <= i < |r| :: r[i] == TriggerOf(items[i])
  {
    seq(|items|, i requires 0 <= i < |items| => TriggerOf(items[i]))
  }

  /** The rules on the list of triggers. */
  ghost predicate TriggersOk(v: Option<Json>) {
    v.Some? && v.value.List? && v.value.items != [] && AllTriggersOk(v.value.items) &&
        DistinctNames(AllTriggers(v.value.items))
  }

  ghost function TriggersOf(v: Option<Json>): seq<Trigger>
    requires TriggersOk(v)
  {
    AllTriggers(v.value.items)
  }

  lemma TriggersAppend(items: seq<Json>, j: Json)
    requires AllTriggersOk(items)
    ensures AllTriggersOk(items + [j]) <==> TriggerOk(j)
  {
    assert (items + [j])[|items|] == j;
  }

  lemma TriggersListed(items: seq<Json>, j: Json)
    requires AllTriggersOk(items) && TriggerOk(j) && AllTriggersOk(items + [j])
    ensures AllTriggers(items + [j]) == AllTriggers(items) + [TriggerOf(j)]
  {
  }

  lemma {:induction false} OneMoreTrigger(items: seq<Json>, n: nat)
    requires n < |items| && AllTriggersOk(items[..n])
    ensures AllTriggersOk(items[..n + 1]) <==> TriggerOk(items[n])
    ensures TriggerOk(items[n]) ==> AllTriggers(items[..n + 1]) == AllTriggers(items[..n]) + [TriggerOf(items[n])]
  {
    TriggersAppend(items[..n], items[n]);
    assert items[..n + 1] == items[..n] + [items[n]];
    if TriggerOk(items[n]) {
      TriggersListed(items[..n], items[n]);
    }
  }

  lemma PrefixOk(items: seq<Json>, n: nat)
    requires n <= |items| && AllTriggersOk(items)
    ensures AllTriggersOk(items[..n]) && AllTriggers(items[..n]) == AllTriggers(items)[..n]
  {
    PrefixItems(items, n);
    assert forall i | 0 <= i < n :: items[..n][i] == items[i];
  }

  lemma PrefixItems(items: seq<Json>, n: nat)
    requires n <= |items| && AllTriggersOk(items)
    ensures AllTriggersOk(items[..n])
  {
  }

  lemma {:induction false} PrefixTriggers(items: seq<Json>, n: nat)
    requires n <= |items|
    ensures AllTriggersOk(items) && DistinctNames(AllTriggers(items)) ==>
              AllTriggersOk(items[..n]) && DistinctNames(AllTriggers(items[..n]))
  {
    if AllTriggersOk(items) {
      PrefixOk(items, n);
    }
  }

  // ---------- triggers: the parser ----------

  method CheckEscalation(j: Json, tier: Tier) returns (ok: bool)
    ensures ok <==> EscalationOk(j, tier)
  {
    var escalation := match Field(j, "escalate_to")
                      case None => Some(if tier == D then "rule" else "local_slm")
                      case Some(v) => Identifier(Some(v));
    ok := escalation.Some? && escalation.value in {"rule", "local_slm", "gateway"} &&
        (tier == D ==> escalation.value == "rule");
  }

  function PostAction(j: Json): bool {
    Field(j, "reasoning_policy").Some? && !Field(j, "reasoning_policy").value.Null?
  }

  method CheckPolicy(j: Json, tier: Tier) returns (ok: bool)
    ensures ok <==> PolicyOk(j, tier)
  {
    var policy := Field(j, "reasoning_policy");
    if policy.None? || policy.value.Null? { return true; }
    var name := Identifier(policy);
    ok := name.Some? && name.value == "post_action" && tier == B;
  }

  method CheckTypes(j: Json) returns (ok: bool)
    ensures ok <==> TypesOk(j)
  {
    var condition := Field(j, "condition");
    ok := (condition.None? || condition.value.Str?)
          && IntegerIfPresent(j, "cooldown_seconds") && IntegerIfPresent(j, "approval_timeout_seconds")
          && Flag(j, "bypass_llm").Some? && Flag(j, "requires_approval").Some?;
  }

  method CheckSafeDefault(j: Json, tier: Tier) returns (ok: bool)
    ensures ok <==> SafeDefaultOk(j, tier)
  {
    var safe := Field(j, "safe_default_action");
    if safe.Some? && !safe.value.Str? { return false; }
    var name := if safe.Some? then safe.value.s else LOG;
    ok := Trimmed(name) && (tier != C || name != "");
  }

  method ParseTrigger(j: Json) returns (r: Result<Trigger, Invalid>)
    ensures r.Ok? <==> TriggerOk(j)
    ensures r.Ok? ==> r.value == TriggerOf(j)
  {
    var name := Identifier(Field(j, "name"));
    if !j.Dict? || name.None? || !TriggerName(name.value) { return Err(Invalid); }
    var tier := TierField(Field(j, "action_tier"));
    if tier.None? { return Err(Invalid); }
    var typed := CheckTypes(j);
    var escalates := CheckEscalation(j, tier.value);
    if !typed || !escalates { return Err(Invalid); }
    var bypass := Flag(j, "bypass_llm");
    if bypass == Some(true) && tier.value != D { return Err(Invalid); }
    var policy := CheckPolicy(j, tier.value);
    var safe := CheckSafeDefault(j, tier.value);
    if !policy || !safe { return Err(Invalid); }
    r := Ok(Trigger(name.value, tier.value, Flag(j, "requires_approval").value, PostAction(j), SafeDefault(j)));
  }

  function NamesOf(ts: seq<Trigger>): set<string> {
    set i | 0 <= i < |ts| :: ts[i].name
  }

  lemma OneMoreName(ts: seq<Trigger>, t: Trigger)
    requires DistinctNames(ts)
    ensures DistinctNames(ts + [t]) <==> t.name !in NamesOf(ts)
    ensures NamesOf(ts + [t]) == NamesOf(ts) + {t.name}
  {
    if t.name in NamesOf(ts) {
      var i :| 0 <= i < |ts| && ts[i].name == t.name;
      assert (ts + [t])[i].name == (ts + [t])[|ts|].name;
    }
    forall x
      ensures x in NamesOf(ts + [t]) <==> x in NamesOf(ts) + {t.name}
    {
      if x in NamesOf(ts) {
        var i :| 0 <= i < |ts| && ts[i].name == x;
        assert (ts + [t])[i].name == x;
      }
      assert (ts + [t])[|ts|] == t;
    }
  }

  /** The looped parser accepts exactly the trigger lists that meet the rules. */
  method ParseTriggers(v: Option<Json>) returns (r: Result<seq<Trigger>, Invalid>)
    ensures r.Ok? <==> TriggersOk(v)
    ensures r.Ok? ==> r.value == TriggersOf(v)
  {
    if v.None? || !v.value.List? || v.value.items == [] { return Err(Invalid); }
    var items := v.value.items;
    var triggers: seq<Trigger> := [];
    var seen: set<string> := {};
    for n := 0 to |items|
      invariant AllTriggersOk(items[..n]) && triggers == AllTriggers(items[..n])
      invariant DistinctNames(triggers) && seen == NamesOf(triggers)
    {
      OneMoreTrigger(items, n);
      PrefixTriggers(items, n + 1);
      var t := ParseTrigger(items[n]);
      if t.Err? { return Err(Invalid); }
      OneMoreName(triggers, t.value);
      if t.value.name in seen {
        return Err(Invalid);
      }
      seen := seen + {t.value.name};
      triggers := triggers + [t.value];
    }
    assert items[..|items|] == items;
    r := Ok(triggers);
  }
}
