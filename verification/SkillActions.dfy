/** Declared actions and each trigger's default actions, the validation of a whole package, and what a package without
    Tier C or D can do. */
module SkillActions {
  import opened Wrappers
  import opened Json
  import opened SkillValidation
  import opened SkillPackage

  type ActionTable = map<string, Tier>

  // ---------- the declared actions ----------

  function ActionName(j: Json): Option<string> {
    Identifier(Field(j, "name"))
  }

  function ActionTier(j: Json): Option<Tier> {
    TierField(Field(j, "tier"))
  }

  predicate ActionOk(j: Json) {
    j.Dict? && ActionName(j).Some? && ActionTier(j).Some?
  }

  ghost predicate AllActionsOk(items: seq<Json>) {
    forall i | 0 <= i < |items| :: ActionOk(items[i])
  }

  function Declared(items: seq<Json>): (r: seq<(string, Tier)>)
    requires AllActionsOk(items)
    ensures |r| == |items| && forall i | 0 <= i < |r| ::
              r[i] == (ActionName(items[i]).value, ActionTier(items[i]).value)
  {
    seq(|items|, i requires 0 <= i < |items| => (ActionName(items[i]).value, ActionTier(items[i]).value))
  }

  ghost predicate DistinctActions(declared: seq<(string, Tier)>) {
    forall i, j | 0 <= i < j < |declared| :: declared[i].0 != declared[j].0
  }

  ghost predicate AvailableOk(items: seq<Json>) {
    AllActionsOk(items) && DistinctActions(Declared(items))
  }

  /** The table says of every declared action its tier, and nothing else. */
  ghost predicate TableOf(declared: seq<(string, Tier)>, table: ActionTable) {
    && (forall i | 0 <= i < |declared| :: declared[i].0 in table && table[declared[i].0] == declared[i].1)
    && (forall name | name in table :: exists i :: 0 <= i < |declared| && declared[i].0 == name)
  }

  lemma OneMoreEntry(declared: seq<(string, Tier)>, entry: (string, Tier), table: ActionTable)
    requires DistinctActions(declared) && TableOf(declared, table)
    ensures DistinctActions(declared + [entry]) <==> entry.0 !in table
    ensures entry.0 !in table ==> TableOf(declared + [entry], table[entry.0 := entry.1])
  {
    var more := declared + [entry];
    assert more[|declared|] == entry;
    if entry.0 in table {
      var i :| 0 <= i < |declared| && declared[i].0 == entry.0;
      assert more[i].0 == more[|declared|].0;
    } else {
      forall name | name in table
        ensures exists i :: 0 <= i < |more| && more[i].0 == name
      {
        var i :| 0 <= i < |declared| && declared[i].0 == name;
        assert more[i] == declared[i];
      }
    }
  }

  lemma OneMoreAction(items: seq<Json>, n: nat)
    requires n < |items| && AllActionsOk(items[..n]) && ActionOk(items[n])
    ensures AllActionsOk(items[..n + 1])
    ensures Declared(items[..n + 1]) ==
              Declared(items[..n]) + [(ActionName(items[n]).value, ActionTier(items[n]).value)]
  {
    assert items[..n + 1] == items[..n] + [items[n]];
  }

  lemma PrefixActions(items: seq<Json>, n: nat)
    requires n <= |items|
    ensures AvailableOk(items) ==> AvailableOk(items[..n])
  {
  }

  method ParseAvailable(items: seq<Json>) returns (r: Result<ActionTable, Invalid>)
    ensures r.Ok? <==> AvailableOk(items)
    ensures r.Ok? ==> TableOf(Declared(items), r.value)
  {
    var table: ActionTable := map[];
    for n := 0 to |items|
      invariant AvailableOk(items[..n]) && TableOf(Declared(items[..n]), table)
    {
      var name, tier := ActionName(items[n]), ActionTier(items[n]);
      if !items[n].Dict? || name.None? || tier.None? {
        assert !ActionOk(items[n]);
        return Err(Invalid);
      }
      OneMoreAction(items, n);
      PrefixActions(items, n + 1);
      OneMoreEntry(Declared(items[..n]), (name.value, tier.value), table);
      if name.value in table {
        return Err(Invalid);
      }
      table := table[name.value := tier.value];
    }
    assert items[..|items|] == items;
    r := Ok(table);
  }

  // ---------- one trigger's defaults ----------

  predicate ReferenceOk(j: Json, table: ActionTable, tier: Tier) {
    var name := Identifier(Some(j));
    name.Some? && name.value in table && (table[name.value] == D ==> tier == D)
  }

  function Texts(items: seq<Json>): (r: seq<string>)
    ensures |r| == |items| && forall i | 0 <= i < |r| :: r[i] == if items[i].Str? then items[i].s else ""
  {
    seq(|items|, i requires 0 <= i < |items| => if items[i].Str? then items[i].s else "")
  }

  ghost predicate ReferencesOk(items: seq<Json>, table: ActionTable, tier: Tier) {
    AllReferencesOk(items, table, tier) && Distinct(Texts(items))
  }

  /** Some default action is of a tier. */
  predicate DefaultsTo(names: seq<string>, table: ActionTable, tier: Tier) {
    exists n :: n in names && n in table && table[n] == tier
  }

  predicate SafeDefaultDeclared(t: Trigger, table: ActionTable) {
    t.tier == C && t.safeDefault != LOG ==> t.safeDefault in table && table[t.safeDefault] == A
  }

  /** A physical action of an autonomous trigger is approved first, or reported to the operator after it. */
  predicate PhysicalGated(t: Trigger, names: seq<string>, table: ActionTable) {
    DefaultsTo(names, table, B) && t.tier != C && t.tier != D ==>
      (t.approval || t.postAction) && (t.postAction ==> DefaultsTo(names, table, A))
  }

  ghost predicate DefaultsOk(t: Trigger, v: Json, table: ActionTable) {
    && v.List? && v.items != [] && ReferencesOk(v.items, table, t.tier)
    && SafeDefaultDeclared(t, table) && PhysicalGated(t, Texts(v.items), table)
  }

  lemma {:induction false} OneMoreReference(items: seq<Json>, n: nat, table: ActionTable, tier: Tier)
    requires n < |items| && ReferencesOk(items[..n], table, tier) && items[n].Str?
    ensures ReferencesOk(items[..n + 1], table, tier) <==>
              ReferenceOk(items[n], table, tier) && items[n].s !in Texts(items[..n])
    ensures Texts(items[..n + 1]) == Texts(items[..n]) + [items[n].s]
  {
    assert items[..n + 1] == items[..n] + [items[n]];
    assert Texts(items[..n + 1]) == Texts(items[..n]) + [items[n].s];
    DistinctAppend(Texts(items[..n]), items[n].s);
    ReferencesAppend(items[..n], items[n], table, tier);
  }

  ghost predicate AllReferencesOk(items: seq<Json>, table: ActionTable, tier: Tier) {
    forall i | 0 <= i < |items| :: ReferenceOk(items[i], table, tier)
  }

  lemma ReferencesAppend(items: seq<Json>, j: Json, table: ActionTable, tier: Tier)
    requires AllReferencesOk(items, table, tier)
    ensures AllReferencesOk(items + [j], table, tier) <==> ReferenceOk(j, table, tier)
  {
    assert (items + [j])[|items|] == j;
  }

  lemma PrefixReferences(items: seq<Json>, n: nat, table: ActionTable, tier: Tier)
    requires n <= |items|
    ensures ReferencesOk(items, table, tier) ==> ReferencesOk(items[..n], table, tier)
  {
    if ReferencesOk(items, table, tier) {
      forall i, j | 0 <= i < j < n
        ensures Texts(items[..n])[i] != Texts(items[..n])[j]
      {
        assert Texts(items)[i] != Texts(items)[j];
      }
    }
  }

  method CheckReferences(items: seq<Json>, table: ActionTable, tier: Tier) returns (r: Result<seq<string>, Invalid>)
    ensures r.Ok? <==> ReferencesOk(items, table, tier)
    ensures r.Ok? ==> r.value == Texts(items)
  {
    var names: seq<string> := [];
    var seen: set<string> := {};
    for n := 0 to |items|
      invariant names == Texts(items[..n]) && (forall x :: x in seen <==> x in names)
      invariant ReferencesOk(items[..n], table, tier)
    {
      var name := Identifier(Some(items[n]));
      if name.None? {
        assert !ReferenceOk(items[n], table, tier);
        return Err(Invalid);
      }
      OneMoreReference(items, n, table, tier);
      PrefixReferences(items, n + 1, table, tier);
      if name.value in seen || name.value !in table || (table[name.value] == D && tier != D) {
        return Err(Invalid);
      }
      seen := seen + {name.value};
      names := names + [name.value];
    }
    assert items[..|items|] == items;
    r := Ok(names);
  }

  method CheckDefaults(t: Trigger, v: Json, table: ActionTable) returns (ok: bool)
    ensures ok <==> DefaultsOk(t, v, table)
  {
    if !v.List? || v.items == [] { return false; }
    var checked := CheckReferences(v.items, table, t.tier);
    if checked.Err? { return false; }
    var names := checked.value;
    if t.tier == C && t.safeDefault != LOG {
      if t.safeDefault !in table || table[t.safeDefault] != A { return false; }
    }
    if !DefaultsTo(names, table, B) || t.tier == C || t.tier == D { return true; }
    if !t.approval && !t.postAction { return false; }
    ok := !t.postAction || DefaultsTo(names, table, A);
  }

  // ---------- the whole section ----------

  function TableFor(declared: seq<(string, Tier)>): (r: ActionTable)
    requires DistinctActions(declared)
    ensures TableOf(declared, r)
  {
    if declared == [] then map[]
    else
      var init, last := declared[..|declared| - 1], declared[|declared| - 1];
      assert declared == init + [last];
      OneMoreEntry(init, last, TableFor(init));
      TableFor(init)[last.0 := last.1]
  }

  lemma TablesAgree(declared: seq<(string, Tier)>, t: ActionTable, u: ActionTable)
    requires TableOf(declared, t) && TableOf(declared, u)
    ensures t == u
  {
  }

  ghost predicate ActionsOk(v: Option<Json>, triggers: seq<Trigger>) {
    && v.Some? && v.value.Dict?
    && var available := Field(v.value, "available"); var defaults := Field(v.value, "defaults");
       && available.Some? && available.value.List? && available.value.items != [] && AvailableOk(available.value.items)
       && defaults.Some? && defaults.value.Dict?
       && DefaultsCover(defaults.value, triggers, TableFor(Declared(available.value.items)))
  }

  /** The defaults name exactly the triggers, and each trigger's are in order. */
  ghost predicate DefaultsCover(defaults: Json, triggers: seq<Trigger>, table: ActionTable)
    requires defaults.Dict?
  {
    && KeysOf(defaults.entries) == NamesOf(triggers)
    && forall i | 0 <= i < |triggers| :: TriggerCovered(defaults, triggers[i], table)
  }

  ghost predicate TriggerCovered(defaults: Json, t: Trigger, table: ActionTable) {
    Field(defaults, t.name).Some? && DefaultsOk(t, Field(defaults, t.name).value, table)
  }

  method CheckAllDefaults(defaults: Json, triggers: seq<Trigger>, table: ActionTable) returns (ok: bool)
    requires defaults.Dict?
    ensures ok <==> DefaultsCover(defaults, triggers, table)
  {
    if KeysOf(defaults.entries) != NamesOf(triggers) { return false; }
    for n := 0 to |triggers|
      invariant forall i | 0 <= i < n :: TriggerCovered(defaults, triggers[i], table)
    {
      assert triggers[n].name in NamesOf(triggers);
      var fits := CheckDefaults(triggers[n], Field(defaults, triggers[n].name).value, table);
      if !fits {
        assert !TriggerCovered(defaults, triggers[n], table);
        return false;
      }
    }
    ok := true;
  }

  ghost function TableIn(v: Option<Json>): ActionTable
    requires v.Some? && Field(v.value, "available").Some? && Field(v.value, "available").value.List?
    requires AvailableOk(Field(v.value, "available").value.items)
  {
    TableFor(Declared(Field(v.value, "available").value.items))
  }

  method ParseActions(v: Option<Json>, triggers: seq<Trigger>) returns (r: Result<ActionTable, Invalid>)
    ensures r.Ok? <==> ActionsOk(v, triggers)
    ensures r.Ok? ==> r.value == TableIn(v)
  {
    if v.None? || !v.value.Dict? { return Err(Invalid); }
    var available := Field(v.value, "available");
    if available.None? || !available.value.List? || available.value.items == [] { return Err(Invalid); }
    var table := ParseAvailable(available.value.items);
    if table.Err? { return Err(Invalid); }
    TablesAgree(Declared(available.value.items), table.value, TableIn(v));
    var defaults := Field(v.value, "defaults");
    if defaults.None? || !defaults.value.Dict? { return Err(Invalid); }
    var covered := CheckAllDefaults(defaults.value, triggers, table.value);
    r := if covered then Ok(table.value) else Err(Invalid);
  }

  // ---------- the whole package ----------

  ghost predicate WellFormed(root: Json) {
    && root.Dict? && RestOk(root) && TriggersOk(Field(root, "triggers"))
    && ActionsOk(Field(root, "actions"), TriggersOf(Field(root, "triggers")))
  }

  /** Some trigger or some declared action, used or not, has Tier C or D. */
  predicate DeclaresCd(triggers: seq<Trigger>, table: ActionTable) {
    || (exists t :: t in triggers && (t.tier == C || t.tier == D))
    || (exists n :: n in table && (table[n] == C || table[n] == D))
  }

  /** The validation of a package: it accepts exactly the well-formed ones, and reads off their triggers and actions. */
  method Validate(root: Json) returns (r: Result<(seq<Trigger>, ActionTable), Invalid>)
    ensures r.Ok? <==> WellFormed(root)
    ensures r.Ok? ==> r.value == (TriggersOf(Field(root, "triggers")), TableIn(Field(root, "actions")))
  {
    if !root.Dict? || !HeaderOk(root) { return Err(Invalid); }
    var sensors := ParseSensors(Field(root, "sensors_required"));
    if !sensors { return Err(Invalid); }
    var triggers := ParseTriggers(Field(root, "triggers"));
    if triggers.Err? { return Err(Invalid); }
    var table := ParseActions(Field(root, "actions"), triggers.value);
    if table.Err? { return Err(Invalid); }
    var prompts := ParsePrompts(Field(root, "prompts"));
    if !prompts || !ConfigOk(Field(root, "config")) { return Err(Invalid); }
    r := Ok((triggers.value, table.value));
  }

  /** What one trigger does by default. */
  function DefaultNames(defaults: Json, t: Trigger): seq<string> {
    var v := Field(defaults, t.name);
    if v.Some? && v.value.List? then Texts(v.value.items) else []
  }

  ghost predicate ActsSafely(t: Trigger, names: seq<string>, table: ActionTable) {
    && names != [] && Distinct(names)
    && (forall n | n in names :: n in table && (table[n] == A || table[n] == B))
    && ((exists n :: n in names && table[n] == B) ==>
          || t.approval
          || (t.tier == B && t.postAction && exists n :: n in names && table[n] == A))
    && (t.postAction && (exists n :: n in names && table[n] == B) ==> exists n :: n in names && table[n] == A)
  }

  lemma CoveredActsSafely(defaults: Json, triggers: seq<Trigger>, table: ActionTable, t: Trigger)
    requires defaults.Dict? && DefaultsCover(defaults, triggers, table) && !DeclaresCd(triggers, table) && t in triggers
    requires t.postAction ==> t.tier == B
    ensures ActsSafely(t, DefaultNames(defaults, t), table)
  {
    assert TriggerCovered(defaults, t, table);
    DefaultsActSafely(t, Field(defaults, t.name).value, table);
  }

  lemma PostActionIsB(v: Option<Json>, t: Trigger)
    requires TriggersOk(v) && t in TriggersOf(v)
    ensures t.postAction ==> t.tier == B
  {
    var i :| 0 <= i < |v.value.items| && TriggersOf(v)[i] == t;
    assert TriggerOk(v.value.items[i]);
    TriggerPolicyIsB(v.value.items[i]);
  }

  lemma TriggerPolicyIsB(j: Json)
    requires TriggerOk(j)
    ensures TriggerOf(j).postAction ==> TriggerOf(j).tier == B
  {
  }

  /** Whatever is listed without a review acts safely: the defaults name exactly the triggers; every default of
      every trigger is declared, and is a Tier A or Tier B action; and a trigger with a Tier B default needs
      approval, or is a Tier B post-action trigger that also tells the operator by a Tier A default. */
  lemma {:induction false} ListedPackagesActSafely(root: Json)
    requires WellFormed(root) && !DeclaresCd(TriggersOf(Field(root, "triggers")), TableIn(Field(root, "actions")))
    ensures var defaults := Field(Field(root, "actions").value, "defaults").value;
            var triggers := TriggersOf(Field(root, "triggers"));
            && KeysOf(defaults.entries) == NamesOf(triggers)
            && forall t | t in triggers :: ActsSafely(t, DefaultNames(defaults, t), TableIn(Field(root, "actions")))
  {
    var v, actions := Field(root, "triggers"), Field(root, "actions");
    var defaults := Field(actions.value, "defaults").value;
    var table, triggers := TableIn(actions), TriggersOf(v);
    forall t | t in triggers
      ensures ActsSafely(t, DefaultNames(defaults, t), table)
    {
      PostActionIsB(v, t);
      CoveredActsSafely(defaults, triggers, table, t);
    }
  }

  lemma DefaultsActSafely(t: Trigger, v: Json, table: ActionTable)
    requires DefaultsOk(t, v, table) && (t.tier == A || t.tier == B) && (t.postAction ==> t.tier == B)
    requires forall n | n in table :: table[n] == A || table[n] == B
    ensures ActsSafely(t, Texts(v.items), table)
  {
    ReferencesResolve(v.items, table, t.tier);
  }

  lemma ReferencesResolve(items: seq<Json>, table: ActionTable, tier: Tier)
    requires ReferencesOk(items, table, tier)
    ensures forall n | n in Texts(items) :: n in table
  {
    forall n | n in Texts(items)
      ensures n in table
    {
      var i :| 0 <= i < |items| && Texts(items)[i] == n;
      assert ReferenceOk(items[i], table, tier);
    }
  }
}
